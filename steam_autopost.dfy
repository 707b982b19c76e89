/** The release announcer: a ledger file of the versions already
    announced, the run that logs in to Steam and opens a discussion, the
    title and body of that post, and the exit status of the command. */
module SteamAutopost {
  import opened Common
  import opened Strings

  /** The ledger, `posted_versions.txt` in the working directory. */
  const LEDGER_FILE_NAME: string := "posted_versions.txt"

  // ----- the ledger -----

  /** `is_already_posted` on the ledger's contents (`None`: no file). */
  predicate PostedIn(ledger: Option<string>, version: string) {
    ledger.Some? && version in SplitLines(ledger.value)
  }

  /** The ledger after `mark_as_posted`: opened for appending, so created
      empty when absent, and `version` plus a newline written at its end. */
  function Appended(ledger: Option<string>, version: string): (r: string)
    ensures |r| > 0 && r[..|r| - 1] == ledger.GetOr("") + version && r[|r| - 1] == '\n'
  {
    ledger.GetOr("") + (version + "\n")
  }

  /** Marking a version on a ledger that is absent, empty or ends in a
      newline makes it read as posted, when the version is one line. */
  lemma MarkThenPosted(ledger: Option<string>, version: string)
    requires !HasLineBreak(version)
    requires ledger.None? || ledger.value == "" || ledger.value[|ledger.value| - 1] == '\n'
    ensures PostedIn(Some(Appended(ledger, version)), version)
    ensures SplitLines(Appended(ledger, version)) == SplitLines(ledger.GetOr("")) + [version]
  {
    SplitLinesAppend(ledger.GetOr(""), version);
    assert SplitLines(Appended(ledger, version))[|SplitLines(ledger.GetOr(""))|] == version;
  }

  /** A ledger written by marking `versions` in turn, from no file. */
  function Marks(versions: seq<string>): Option<string>
    decreases |versions|
  {
    if versions == [] then None
    else Some(Appended(Marks(versions[..|versions| - 1]), versions[|versions| - 1]))
  }

  /** Such a ledger is absent or ends in a newline, its lines are the
      marked versions, and a version reads as posted exactly when it was
      marked. */
  lemma {:induction false} MarksLedger(versions: seq<string>)
    requires forall k :: 0 <= k < |versions| ==> !HasLineBreak(versions[k])
    ensures Marks(versions).None? <==> versions == []
    ensures Marks(versions).Some? ==>
      Marks(versions).value != "" && Marks(versions).value[|Marks(versions).value| - 1] == '\n'
    ensures SplitLines(Marks(versions).GetOr("")) == versions
    ensures forall v :: PostedIn(Marks(versions), v) <==> v in versions
    decreases |versions|
  {
    if versions != [] {
      var init := versions[..|versions| - 1];
      var v := versions[|versions| - 1];
      MarksLedger(init);
      MarkThenPosted(Marks(init), v);
      assert versions == init + [v];
    }
  }

  // ----- the post -----

  const TITLE_HEAD: string := "L4D2 Addon Manager "
  const TITLE_TAIL: string := " — simple addon control tool"

  /** The discussion title for `version`. */
  function Title(version: string): (t: string)
    ensures StartsWith(t, TITLE_HEAD) && EndsWith(t, TITLE_TAIL)
    ensures |t| == |TITLE_HEAD| + |version| + |TITLE_TAIL|
  {
    TITLE_HEAD + version + TITLE_TAIL
  }

  /** The version a title announces, when it has the title's shape. */
  function TitleVersion(t: string): Option<string> {
    if StartsWith(t, TITLE_HEAD) && EndsWith(t, TITLE_TAIL) && |TITLE_HEAD| + |TITLE_TAIL| <= |t|
    then Some(t[|TITLE_HEAD|..|t| - |TITLE_TAIL|])
    else None
  }

  /** Each title names its version, so different versions get different
      titles. */
  lemma TitleNamesVersion(version: string)
    ensures TitleVersion(Title(version)) == Some(version)
  {
    var t := Title(version);
    assert t[|TITLE_HEAD|..|t| - |TITLE_TAIL|] == version;
  }

  const BODY_INTRO: string :=
    "I released a new version of my L4D2 addon manager.\n\n" +
    "Features:\n" +
    "• Enable / disable addons in one click\n" +
    "• No manual folder editing\n" +
    "• Works with Workshop addons\n\n" +
    "Free & open-source:\n"

  const RELEASE_TAG_URL: string := "https://github.com/k1n1maro/L4D2-Addon-Manager/releases/tag/"

  const BODY_OUTRO: string := "\n\nFeedback is welcome 👍"

  /** The post text for `version`. */
  function Body(version: string): string {
    BODY_INTRO + (RELEASE_TAG_URL + version) + BODY_OUTRO
  }

  /** The post links the release page of its own version. */
  lemma BodyLinksRelease(version: string)
    ensures Contains(Body(version), RELEASE_TAG_URL + version)
  {
    ContainsMiddle(BODY_INTRO, RELEASE_TAG_URL + version, BODY_OUTRO);
  }

  // ----- the run -----

  /** How a browser step ends: it succeeds, it reports failure, or it
      raises. */
  datatype Step = Done | Refused | Raised

  /** What the browser does when driven: starting the driver and opening
      the discussions page can only raise; logging in and creating the
      post can also report failure. */
  datatype Browser = Browser(setupRaises: bool, login: Step, navigateRaises: bool, post: Step)

  /** The browser steps all go through. */
  predicate Completes(b: Browser) {
    !b.setupRaises && b.login == Done && !b.navigateRaises && b.post == Done
  }

  datatype Driver = NoDriver | Running | Closed

  class SteamPoster {
    const login: string
    const password: string
    const version: string
    /** The ledger file's contents, `None` while there is no file. */
    var ledger: Option<string>
    var driver: Driver

    constructor (login: string, password: string, version: string, ledger: Option<string>)
      ensures this.login == login && this.password == password && this.version == version
      ensures this.ledger == ledger && driver == NoDriver
    {
      this.login := login;
      this.password := password;
      this.version := version;
      this.ledger := ledger;
      driver := NoDriver;
    }

    /** False without a ledger file; otherwise whether the version is one
        of the file's lines. */
    function IsAlreadyPosted(): (r: bool)
      reads this
      ensures ledger.None? ==> !r
      ensures ledger.Some? ==> (r <==> exists k :: 0 <= k < |SplitLines(ledger.value)| &&
                                                 SplitLines(ledger.value)[k] == version)
    {
      PostedIn(ledger, version)
    }

    method MarkAsPosted()
      modifies this
      ensures ledger == Some(Appended(old(ledger), version)) && driver == old(driver)
    {
      ledger := Some(ledger.GetOr("") + (version + "\n"));
    }

    /** `run`: an announced version is skipped with success and no
        browser; otherwise the version is recorded exactly when every
        browser step succeeds, and the driver, once started, is closed. */
    method Run(b: Browser) returns (ok: bool)
      modifies this
      ensures old(IsAlreadyPosted()) ==> ok && ledger == old(ledger) && driver == old(driver)
      ensures !old(IsAlreadyPosted()) ==> (ok <==> Completes(b))
      ensures !old(IsAlreadyPosted()) ==>
        ledger == if ok then Some(Appended(old(ledger), version)) else old(ledger)
      ensures !old(IsAlreadyPosted()) ==>
        driver == if !b.setupRaises || old(driver) == Running then Closed else old(driver)
    {
      if IsAlreadyPosted() {
        return true;
      }
      ok := false;
      if !b.setupRaises {
        driver := Running;
        if b.login == Done && !b.navigateRaises && b.post == Done {
          MarkAsPosted();
          ok := true;
        }
      }
      if driver == Running {
        driver := Closed;
      }
    }
  }

  // ----- the command -----

  /** `main`: the three settings as the environment gives them (`None` when
      unset); exits with 1 when one is unset or empty, otherwise with 0
      exactly when the run succeeds. */
  method Announce(login: Option<string>, password: Option<string>, version: Option<string>,
                  ledger: Option<string>, b: Browser)
    returns (code: int, ledger': Option<string>)
    ensures (login.None? || password.None? || version.None? ||
      login == Some("") || password == Some("") || version == Some("")) ==>
      code == 1 && ledger' == ledger
    ensures (login.Some? && password.Some? && version.Some? &&
      login != Some("") && password != Some("") && version != Some("")) ==>
      (code == 0 <==> PostedIn(ledger, version.value) || Completes(b)) &&
      (code == 0 || code == 1) &&
      ledger' == if !PostedIn(ledger, version.value) && Completes(b)
                 then Some(Appended(ledger, version.value)) else ledger
  {
    if login.None? || password.None? || version.None? ||
       login.value == "" || password.value == "" || version.value == "" {
      return 1, ledger;
    }
    var poster := new SteamPoster(login.value, password.value, version.value, ledger);
    var success := poster.Run(b);
    code := if success then 0 else 1;
    ledger' := poster.ledger;
  }
}
