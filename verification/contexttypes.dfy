/** The `DetectedContext` record of packages/core/src/context-detector.ts and
    the enumerations it is built from. */
module ContextTypes {
  import opened Wrappers
  import opened FsUtils

  datatype ProjectType = Frontend | Backend | Mobile | Library {
    function Name(): string {
      match this
      case Frontend => "frontend"
      case Backend => "backend"
      case Mobile => "mobile"
      case Library => "library"
    }
  }

  datatype MonorepoType = Nx | Turborepo | YarnWorkspaces | Lerna | NoMonorepo {
    function Name(): string {
      match this
      case Nx => "nx"
      case Turborepo => "turborepo"
      case YarnWorkspaces => "yarn-workspaces"
      case Lerna => "lerna"
      case NoMonorepo => "unknown"
    }
  }

  datatype BranchType = FeatureBranch | BugfixBranch | ReleaseBranch | MainBranch | UnknownBranch

  datatype TaskType = FeatureTask | BugfixTask | RefactorTask | TestTask | DocumentationTask | UnknownTask

  datatype Complexity = Low | Medium | High

  datatype Project = Project(
    ptype: ProjectType,
    framework: Option<string>,
    language: seq<string>,
    isMonorepo: bool,
    monorepoType: MonorepoType)

  datatype Service = Service(name: Option<string>, root: Option<Path>)

  datatype Git = Git(branch: string, branchType: BranchType, isPr: bool)

  datatype Task = Task(keywords: seq<string>, complexity: Complexity, ttype: TaskType)

  datatype WorkspaceContext = WorkspaceContext(
    root: Path,
    cwd: Path,
    serviceRoot: Option<Path>,
    relativeCwd: string)

  datatype DetectedContext = DetectedContext(
    project: Project,
    service: Service,
    git: Git,
    task: Task,
    workspace: Option<WorkspaceContext>)

  /** A `string | null` field used as a condition: present and non-empty. */
  predicate Set(s: Option<string>) {
    s.Some? && s.value != ""
  }
}
