/** The update configuration: the repository the updater polls, the running
    version, the polling interval and the configuration self-check. */
module UpdateConfig {
  import opened Strings

  const GITHUB_USERNAME: string := "k1n1maro"
  const GITHUB_REPO_NAME: string := "L4D2-Addon-Manager"
  const CURRENT_VERSION: string := "1.1.0"

  /** The user name the template ships with, which the self-check rejects. */
  const PLACEHOLDER_USERNAME: string := "your-github-username"

  const API_PREFIX: string := "https://api.github.com/repos/"
  const API_SUFFIX: string := "/releases/latest"

  const MS_PER_HOUR: nat := 60 * 60 * 1000

  /** 24 hours, in milliseconds. */
  const UPDATE_CHECK_INTERVAL: nat := 24 * MS_PER_HOUR

  /** `owner/name`, the repository slug. */
  function RepoSlug(owner: string, name: string): (slug: string)
    ensures |slug| == |owner| + 1 + |name|
    ensures slug[..|owner|] == owner && slug[|owner|] == '/' && slug[|owner| + 1..] == name
  {
    owner + "/" + name
  }

  /** The GitHub endpoint for the latest release of a repository. */
  function ApiUrl(repo: string): (url: string)
    ensures |url| == |API_PREFIX| + |repo| + |API_SUFFIX|
    ensures StartsWith(url, API_PREFIX) && EndsWith(url, API_SUFFIX)
    ensures url[|API_PREFIX|..|url| - |API_SUFFIX|] == repo
  {
    API_PREFIX + repo + API_SUFFIX
  }

  const GITHUB_REPO: string := RepoSlug(GITHUB_USERNAME, GITHUB_REPO_NAME)
  const GITHUB_API_URL: string := ApiUrl(GITHUB_REPO)

  /** A slug whose parts contain no `/` splits back into owner and name. */
  lemma SlugRoundTrip(owner: string, name: string)
    requires '/' !in owner && '/' !in name
    ensures Split(RepoSlug(owner, name), '/') == [owner, name]
  {
    assert RepoSlug(owner, name) == Join([owner, name], '/') by {
      assert Join([owner, name][1..], '/') == name;
    }
    SplitJoin([owner, name], '/');
  }

  const MSG_NO_USERNAME: string := "Не указан GitHub username в GITHUB_USERNAME"
  const MSG_NO_REPO_NAME: string := "Не указано название репозитория в GITHUB_REPO_NAME"
  const MSG_NO_VERSION: string := "Не указана текущая версия в CURRENT_VERSION"

  /** The configuration self-check: one message per failed check, in the
      order username, repository name, version. */
  function ValidateConfig(username: string, repoName: string, version: string): (errors: seq<string>)
    ensures errors == [] <==> username != PLACEHOLDER_USERNAME && repoName != "" && version != ""
    ensures |errors| == (if username == PLACEHOLDER_USERNAME then 1 else 0) +
      (if repoName == "" then 1 else 0) + (if version == "" then 1 else 0)
    ensures MSG_NO_USERNAME in errors <==> username == PLACEHOLDER_USERNAME
    ensures MSG_NO_REPO_NAME in errors <==> repoName == ""
    ensures MSG_NO_VERSION in errors <==> version == ""
    ensures username == PLACEHOLDER_USERNAME ==> errors[0] == MSG_NO_USERNAME
    ensures version == "" ==> errors[|errors| - 1] == MSG_NO_VERSION
  {
    (if username == PLACEHOLDER_USERNAME then [MSG_NO_USERNAME] else []) +
    (if repoName == "" then [MSG_NO_REPO_NAME] else []) +
    (if version == "" then [MSG_NO_VERSION] else [])
  }

  /** With the constants as shipped the self-check reports nothing. */
  lemma ShippedConfigIsValid()
    ensures ValidateConfig(GITHUB_USERNAME, GITHUB_REPO_NAME, CURRENT_VERSION) == []
  {
    assert |GITHUB_USERNAME| != |PLACEHOLDER_USERNAME|;
  }

  /** The summary of the running build, keyed as the updater reports it. */
  function GetVersionInfo(): (info: map<string, string>)
    ensures info.Keys == {"version", "repo", "api_url"}
    ensures info["version"] == CURRENT_VERSION && info["repo"] == GITHUB_REPO
    ensures info["api_url"] == ApiUrl(info["repo"])
  {
    map["version" := CURRENT_VERSION, "repo" := GITHUB_REPO, "api_url" := GITHUB_API_URL]
  }

  /** Whole hours in an interval of milliseconds (Python's `//`). */
  function IntervalHours(ms: nat): (h: nat)
    ensures h * MS_PER_HOUR <= ms < (h + 1) * MS_PER_HOUR
  {
    ms / MS_PER_HOUR
  }

  lemma CheckIntervalIsOneDay()
    ensures UPDATE_CHECK_INTERVAL == 86400000
    ensures IntervalHours(UPDATE_CHECK_INTERVAL) == 24
  {
  }
}
