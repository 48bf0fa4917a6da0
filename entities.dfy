/**
 * The build server's objects that the core reads but never changes. The host
 * owns them; here each is a value that carries exactly the parts the core
 * looks at.
 */
module Entities {

  /** A GitHub repository identity: server host, owner and repository name; equality is structural. */
  datatype RepositoryInfo = RepositoryInfo(server: string, owner: string, name: string)

  datatype Project = Project(id: string)

  /** A build configuration ("build type"). */
  datatype BuildType = BuildType(id: string)

  /** An OAuth connection descriptor. */
  datatype Connection = Connection(id: string)

  /**
   * A VCS root: its owning project, the projects and the build types that
   * use it, as the host reports them.
   */
  datatype VcsRoot = VcsRoot(
    id: string,
    project: Project,
    usagesInProjects: seq<Project>,
    usagesInConfigurations: seq<BuildType>)

  /** One entry of the repository grouping: an identity and the roots that share it. */
  datatype Entry = Entry(info: RepositoryInfo, roots: set<VcsRoot>)
}
