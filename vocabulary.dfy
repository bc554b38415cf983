/**
 * The static configuration of the résumé scorer: the skill vocabulary the
 * scan looks for, the catalogue of job profiles, and the skill categories
 * used for the per-category counts.  All of it is fixed data, read only.
 */
module Vocabulary {

  /** A job profile: the skills it requires, the skills it prefers, in their
      declared order, and the minimum years of experience. */
  datatype JobProfile = JobProfile(required: seq<string>, preferred: seq<string>, experienceYears: nat)

  /** The skill vocabulary, in declared order: its six groups one after the other. */
  const TechSkills: seq<string> :=
    ProgrammingLanguages + WebTechnologies + Databases + CloudAndDevOps + DataScienceAndML + OtherTechnologies

  const ProgrammingLanguages: seq<string> := [
    "Python", "Java", "JavaScript", "TypeScript", "C++", "C#", "Ruby", "Go", "Rust", "Swift", "Kotlin",
    "PHP", "R", "MATLAB", "Scala", "Perl", "Objective-C", "Dart", "Julia", "Elixir", "Clojure"
  ]

  const WebTechnologies: seq<string> := [
    "HTML", "CSS", "React", "Angular", "Vue.js", "Node.js", "Express", "Django", "Flask", "FastAPI",
    "Spring Boot", "Ruby on Rails", "ASP.NET", "Laravel", "Next.js", "Nuxt.js", "Gatsby", "Redux",
    "GraphQL", "REST API", "SOAP", "WebSockets", "jQuery", "Bootstrap", "Tailwind CSS", "Sass"
  ]

  const Databases: seq<string> := [
    "MySQL", "PostgreSQL", "MongoDB", "Redis", "Elasticsearch", "Cassandra", "Oracle", "SQL Server",
    "SQLite", "DynamoDB", "Neo4j", "CouchDB", "MariaDB", "Firestore", "RDS", "DocumentDB"
  ]

  const CloudAndDevOps: seq<string> := [
    "AWS", "Azure", "GCP", "Docker", "Kubernetes", "Jenkins", "GitLab CI", "GitHub Actions",
    "Terraform", "Ansible", "Puppet", "Chef", "CloudFormation", "CircleCI", "Travis CI",
    "Prometheus", "Grafana", "ELK Stack", "Datadog", "New Relic", "Nginx", "Apache"
  ]

  const DataScienceAndML: seq<string> := [
    "Machine Learning", "Deep Learning", "TensorFlow", "PyTorch", "Keras", "Scikit-learn",
    "Pandas", "NumPy", "Matplotlib", "Seaborn", "Jupyter", "NLP", "Computer Vision",
    "Spark", "Hadoop", "Tableau", "Power BI", "Statistics", "Data Mining", "MLOps"
  ]

  const OtherTechnologies: seq<string> := [
    "Git", "Linux", "Windows Server", "Agile", "Scrum", "JIRA", "Confluence", "Microservices",
    "API Development", "Unit Testing", "Integration Testing", "CI/CD", "DevOps", "Cloud Computing",
    "Cybersecurity", "Blockchain", "IoT", "AR/VR", "Mobile Development", "Android", "iOS"
  ]

  const SeniorPythonDeveloper: JobProfile := JobProfile(
    ["Python", "Django", "Flask", "REST API", "PostgreSQL", "Docker", "Git", "AWS"],
    ["Machine Learning", "Kubernetes", "Redis", "Celery", "FastAPI", "Microservices"],
    5)

  const DataScientist: JobProfile := JobProfile(
    ["Python", "Machine Learning", "Deep Learning", "TensorFlow", "PyTorch", "Pandas", "NumPy", "SQL"],
    ["NLP", "Computer Vision", "Spark", "Hadoop", "AWS", "Docker", "MLOps"],
    3)

  const FullStackDeveloper: JobProfile := JobProfile(
    ["JavaScript", "React", "Node.js", "HTML", "CSS", "MongoDB", "Express", "Git"],
    ["TypeScript", "Next.js", "GraphQL", "Docker", "AWS", "Redux", "Webpack"],
    4)

  const DevOpsEngineer: JobProfile := JobProfile(
    ["Docker", "Kubernetes", "CI/CD", "Jenkins", "AWS", "Linux", "Terraform", "Ansible"],
    ["Python", "Bash", "Prometheus", "Grafana", "ELK Stack", "GitOps", "ArgoCD"],
    4)

  /** The catalogue of job positions, keyed by position name. */
  const JobPositions: map<string, JobProfile> := map[
    "Senior Python Developer" := SeniorPythonDeveloper,
    "Data Scientist" := DataScientist,
    "Full Stack Developer" := FullStackDeveloper,
    "DevOps Engineer" := DevOpsEngineer
  ]

  /** The skill categories behind the per-category counts, in declared order. */
  const SkillCategories: seq<(string, seq<string>)> := [
    ("Languages", ["Python", "Java", "JavaScript", "TypeScript", "C++", "C#", "Ruby", "Go", "Rust", "Swift", "Kotlin", "PHP", "R"]),
    ("Frameworks", ["React", "Angular", "Vue.js", "Django", "Flask", "Spring Boot", "Express", "FastAPI", "Next.js"]),
    ("Databases", ["MySQL", "PostgreSQL", "MongoDB", "Redis", "Elasticsearch", "Cassandra", "Oracle", "SQL Server"]),
    ("Cloud/DevOps", ["AWS", "Azure", "GCP", "Docker", "Kubernetes", "Jenkins", "Terraform", "Ansible"]),
    ("Data Science", ["Machine Learning", "Deep Learning", "TensorFlow", "PyTorch", "Pandas", "NumPy", "NLP"])
  ]
}
