/** One enumeration of the service with its table of names. */
module EnumTables {
  import opened EnumNames

  datatype ProjectError =
    | OK | REQUIRES_AUTH | NO_REPOSITORY | REPO_TOO_LARGE | NO_BRANCH | NO_PATH
    | INVALID_META | PAGE_RENDER
    | DUPLICATE_PAGE | UNKNOWN_RECIPE_TYPE | INVALID_INGREDIENT
    | INVALID_FILE | INVALID_FORMAT | INVALID_RESLOC | INVALID_VERSION_BRANCH
    | INVALID_FRONTMATTER
    | MISSING_PLATFORM_PROJECT | NO_PAGE_TITLE | MISSING_REQUIRED_ATTRIBUTE
    | UNKNOWN

  function ErrorName(e: ProjectError): string {
    match e
    case OK => "ok"
    case REQUIRES_AUTH => "requires_auth"
    case NO_REPOSITORY => "no_repository"
    case REPO_TOO_LARGE => "repo_too_large"
    case NO_BRANCH => "no_branch"
    case NO_PATH => "no_path"
    case INVALID_META => "invalid_meta"
    case PAGE_RENDER => "page_render"
    case DUPLICATE_PAGE => "duplicate_page"
    case UNKNOWN_RECIPE_TYPE => "unknown_recipe_type"
    case INVALID_INGREDIENT => "invalid_ingredient"
    case INVALID_FILE => "invalid_file"
    case INVALID_FORMAT => "invalid_format"
    case INVALID_RESLOC => "invalid_resloc"
    case INVALID_VERSION_BRANCH => "invalid_version_branch"
    case INVALID_FRONTMATTER => "invalid_frontmatter"
    case MISSING_PLATFORM_PROJECT => "missing_platform_project"
    case NO_PAGE_TITLE => "no_page_title"
    case MISSING_REQUIRED_ATTRIBUTE => "missing_required_attribute"
    case UNKNOWN => ""
  }

  /** `_ProjectError_map`: every error but UNKNOWN has a name. */
  const ERROR_NAMES: map<ProjectError, string> := map e: ProjectError | e != UNKNOWN :: ErrorName(e)

  const ERRORS: set<ProjectError> := set e: ProjectError | true

  /** The length and two characters are enough to tell the names apart. */
  function NamedBy(name: string): ProjectError
    requires name != ""
  {
    var length, first, ninth := |name|, name[0], if |name| > 8 then name[8] else ' ';
    if length == 2 then OK
    else if length == 7 then NO_PATH
    else if length == 9 then NO_BRANCH
    else if length == 11 then PAGE_RENDER
    else if length == 12 then if ninth == 'm' then INVALID_META else INVALID_FILE
    else if length == 13 then
      if first == 'r' then REQUIRES_AUTH else if ninth == 't' then NO_PAGE_TITLE else NO_REPOSITORY
    else if length == 14 then
      if first == 'r' then REPO_TOO_LARGE else if first == 'd' then DUPLICATE_PAGE
      else if ninth == 'f' then INVALID_FORMAT else INVALID_RESLOC
    else if length == 18 then INVALID_INGREDIENT
    else if length == 19 then if first == 'u' then UNKNOWN_RECIPE_TYPE else INVALID_FRONTMATTER
    else if length == 22 then INVALID_VERSION_BRANCH
    else if length == 24 then MISSING_PLATFORM_PROJECT
    else MISSING_REQUIRED_ATTRIBUTE
  }

  lemma NameTells(e: ProjectError)
    requires e != UNKNOWN
    ensures ErrorName(e) != "unknown" && ErrorName(e) != "" && NamedBy(ErrorName(e)) == e
  {
  }

  lemma NamesDiffer()
    ensures Injective(ERROR_NAMES) && "unknown" !in ERROR_NAMES.Values
  {
    hide NamedBy;
    forall e | e in ERROR_NAMES
      ensures ERROR_NAMES[e] != "unknown" && ERROR_NAMES[e] != "" && NamedBy(ERROR_NAMES[e]) == e
    {
      NameTells(e);
    }
    hide ErrorName;
  }

  /** Every project error survives print-then-parse, whatever order the table is reversed in. */
  lemma ProjectErrorsSurvive(reversed: map<string, ProjectError>, e: ProjectError)
    requires Reverses(ERROR_NAMES, reversed)
    ensures ParseEnum(reversed, UNKNOWN, EnumToStr(ERROR_NAMES, e)) == e
  {
    NamesDiffer();
    hide ErrorName, Injective;
    EnumRoundTripIff(ERRORS, ERROR_NAMES, reversed, UNKNOWN);
  }
}
