/** The interface translations and the object that holds the current
    interface language: switching languages, looking up and filling in a
    text, and keeping the choice in the settings file. */
module Localization {
  import opened Common
  import opened Strings

  const DEFAULT_LANGUAGE: string := "ru"

  // ----- the replacement fields of `str.format` -----

  /** A replacement field the model fills in: a keyword name, so neither
      empty nor all digits (those ask for positional arguments, of which
      there are none) and without conversion, format spec, attribute, index
      or a nested field. */
  predicate BareName(n: string) {
    n != "" && !IsDigits(n) && forall k :: 0 <= k < |n| ==> n[k] !in "{:!.["
  }

  /** The field names of a template in order, or `None` when the template
      is malformed for `str.format` (a lone `}`, an unclosed `{`, a field
      that is not a bare name). `{{` and `}}` are literal braces. */
  function Fields(s: string): Option<seq<string>>
    decreases |s|
  {
    if s == [] then Some([])
    else if s[0] == '{' then
      if |s| > 1 && s[1] == '{' then Fields(s[2..])
      else if '}' !in s then None
      else
        var k := IndexOf(s, '}');
        if !BareName(s[1..k]) then None
        else match Fields(s[k + 1..])
          case Some(fs) => Some([s[1..k]] + fs)
          case None => None
    else if s[0] == '}' then
      if |s| > 1 && s[1] == '}' then Fields(s[2..]) else None
    else Fields(s[1..])
  }

  /** `s.format(**args)`: each field replaced by its argument, `None` where
      Python raises (a malformed template or a field without an argument). */
  function Format(s: string, args: map<string, string>): Option<string>
    decreases |s|
  {
    if s == [] then Some([])
    else if s[0] == '{' then
      if |s| > 1 && s[1] == '{' then
        match Format(s[2..], args)
        case Some(t) => Some("{" + t)
        case None => None
      else if '}' !in s then None
      else
        var k := IndexOf(s, '}');
        if !BareName(s[1..k]) || s[1..k] !in args then None
        else match Format(s[k + 1..], args)
          case Some(t) => Some(args[s[1..k]] + t)
          case None => None
    else if s[0] == '}' then
      if |s| > 1 && s[1] == '}' then
        match Format(s[2..], args)
        case Some(t) => Some("}" + t)
        case None => None
      else None
    else
      match Format(s[1..], args)
      case Some(t) => Some([s[0]] + t)
      case None => None
  }

  /** Formatting succeeds exactly when the template is well formed and every
      one of its fields has an argument. */
  lemma {:induction false} FormatSucceedsIff(s: string, args: map<string, string>)
    ensures Format(s, args).Some? <==>
      Fields(s).Some? && forall k :: 0 <= k < |Fields(s).value| ==> Fields(s).value[k] in args
    decreases |s|
  {
    if s == [] {
    } else if s[0] == '{' {
      if |s| > 1 && s[1] == '{' {
        FormatSucceedsIff(s[2..], args);
      } else if '}' in s {
        var k := IndexOf(s, '}');
        FormatSucceedsIff(s[k + 1..], args);
        if BareName(s[1..k]) && Fields(s[k + 1..]).Some? {
          var fs := Fields(s[k + 1..]).value;
          var all := [s[1..k]] + fs;
          assert Fields(s) == Some(all);
          assert (forall j :: 0 <= j < |all| ==> all[j] in args) <==>
            s[1..k] in args && forall j :: 0 <= j < |fs| ==> fs[j] in args
          by {
            assert all[0] == s[1..k];
            assert forall j :: 0 <= j < |fs| ==> all[j + 1] == fs[j];
          }
        }
      }
    } else if s[0] == '}' {
      if |s| > 1 && s[1] == '}' {
        FormatSucceedsIff(s[2..], args);
      }
    } else {
      FormatSucceedsIff(s[1..], args);
    }
  }

  /** A text without braces. */
  predicate Plain(s: string) {
    '{' !in s && '}' !in s
  }

  /** A plain text has no fields and formats to itself. */
  lemma {:induction false} PlainTextFormatsToItself(s: string, args: map<string, string>)
    requires Plain(s)
    ensures Fields(s) == Some([]) && Format(s, args) == Some(s)
  {
    if s != [] {
      assert s[0] in s && Plain(s[1..]);
      PlainTextFormatsToItself(s[1..], args);
      assert [s[0]] + s[1..] == s;
    }
  }

  /** The fields of two well-formed templates, one after the other. */
  lemma {:induction false} FieldsAppend(a: string, b: string, fa: seq<string>, fb: seq<string>)
    requires Fields(a) == Some(fa) && Fields(b) == Some(fb)
    ensures Fields(a + b) == Some(fa + fb)
    decreases |a|, 1
  {
    var s := a + b;
    if a == [] {
      assert s == b && fa == [] && fa + fb == fb;
    } else if a[0] == '{' && |a| > 1 && a[1] == '{' {
      assert s[0] == '{' && s[1] == '{';
      assert s[2..] == a[2..] + b;
      FieldsAppend(a[2..], b, fa, fb);
    } else if a[0] == '{' {
      FieldsAppendAtField(a, b, fa, fb);
    } else if a[0] == '}' {
      assert |a| > 1 && a[1] == '}';
      assert s[0] == '}' && s[1] == '}';
      assert s[2..] == a[2..] + b;
      FieldsAppend(a[2..], b, fa, fb);
    } else {
      assert s[0] == a[0];
      assert s[1..] == a[1..] + b;
      FieldsAppend(a[1..], b, fa, fb);
    }
  }

  lemma {:induction false} FieldsAppendAtField(a: string, b: string, fa: seq<string>, fb: seq<string>)
    requires Fields(a) == Some(fa) && Fields(b) == Some(fb)
    requires a != [] && a[0] == '{' && !(|a| > 1 && a[1] == '{')
    ensures Fields(a + b) == Some(fa + fb)
    decreases |a|, 0
  {
    var s := a + b;
    assert '}' in a;
    var k := IndexOf(a, '}');
    IndexOfAppend(a, b, '}');
    var name := a[1..k];
    var rest := Fields(a[k + 1..]).value;
    assert BareName(name) && fa == [name] + rest;
    assert s[0] == '{' && s[1] == a[1];
    assert s[1..k] == name;
    assert s[k + 1..] == a[k + 1..] + b;
    FieldsAppend(a[k + 1..], b, rest, fb);
    assert [name] + (rest + fb) == fa + fb;
  }

  /** A lone field `{n}`. */
  lemma FieldAlone(n: string)
    requires BareName(n) && '}' !in n
    ensures Fields("{" + n + "}") == Some([n])
  {
    var s := "{" + n + "}";
    assert n[0] != '{';
    assert s[0] == '{' && s[1] == n[0];
    assert s[|n| + 1] == '}' && s[..|n| + 1] == "{" + n;
    IndexOfFirst(s, '}', |n| + 1);
    assert s[1..|n| + 1] == n;
    assert s[|n| + 2..] == [];
    assert [n] + [] == [n];
  }

  // ----- the translation tables -----

  /** Each language's table, joined from its sections. */
  function Ru(): map<string, string> {
    RuMain() + RuTabs() + RuButtons() + RuDescriptions() + RuSettings() + RuMessages() +
    RuDialogs() + RuStatuses() + RuErrors() + RuUpdates() + RuHelp()
  }

  function En(): map<string, string> {
    EnMain() + EnTabs() + EnButtons() + EnDescriptions() + EnSettings() + EnMessages() +
    EnDialogs() + EnStatuses() + EnErrors() + EnUpdates() + EnHelp()
  }

  /** Language code to table. */
  function Translations(): map<string, map<string, string>> {
    map["ru" := Ru(), "en" := En()]
  }

  lemma TranslationLanguages()
    ensures Translations().Keys == {"ru", "en"}
  {
  }

  /** The two tables translate the same keys. */
  lemma SameKeys()
    ensures Ru().Keys == En().Keys
  {
    MainKeys();
    TabsKeys();
    ButtonsKeys();
    DescriptionsKeys();
    SettingsKeys();
    MessagesKeys();
    DialogsKeys();
    StatusesKeys();
    ErrorsKeys();
    UpdatesKeys();
    HelpKeys();
  }

  /** The texts with replacement fields have the same fields in both
      languages: `{total}` then `{enabled}` in the addon count, `{name}` in
      the delete confirmation. */
  lemma SameFields()
    ensures Fields(RuDescriptions()["addons_count"]) == Fields(EnDescriptions()["addons_count"]) == Some(["total", "enabled"])
    ensures Fields(RuDialogs()["dialog_delete_addon_text"]) == Fields(EnDialogs()["dialog_delete_addon_text"]) == Some(["name"])
  {
    RuCountFields();
    EnCountFields();
    RuDeleteFields();
    EnDeleteFields();
  }

  /** So the addon count formats, in either language, exactly when both
      counts are given, and the delete confirmation exactly when the name
      is. */
  lemma FieldTextsFormat(kwargs: map<string, string>)
    ensures Format(RuDescriptions()["addons_count"], kwargs).Some? <==> "total" in kwargs && "enabled" in kwargs
    ensures Format(EnDescriptions()["addons_count"], kwargs).Some? <==> "total" in kwargs && "enabled" in kwargs
    ensures Format(RuDialogs()["dialog_delete_addon_text"], kwargs).Some? <==> "name" in kwargs
    ensures Format(EnDialogs()["dialog_delete_addon_text"], kwargs).Some? <==> "name" in kwargs
  {
    SameFields();
    FormatSucceedsIff(RuDescriptions()["addons_count"], kwargs);
    FormatSucceedsIff(EnDescriptions()["addons_count"], kwargs);
    FormatSucceedsIff(RuDialogs()["dialog_delete_addon_text"], kwargs);
    FormatSucceedsIff(EnDialogs()["dialog_delete_addon_text"], kwargs);
    var two := ["total", "enabled"];
    assert two[0] == "total" && two[1] == "enabled";
    var one := ["name"];
    assert one[0] == "name";
  }

  /** The language list offered in the language dialog: code to the
      language's own name. */
  function GetAvailableLanguages(): (langs: map<string, string>)
    ensures langs.Keys == {"ru", "en"}
    ensures langs["ru"] == "Русский" && langs["en"] == "English"
  {
    map["ru" := "Русский", "en" := "English"]
  }

  /** The languages offered are exactly the languages translated. */
  lemma AvailableLanguagesAreTranslated()
    ensures GetAvailableLanguages().Keys == Translations().Keys
  {
    TranslationLanguages();
  }

  // ----- the settings file -----

  /** A JSON value in the settings file, as far as the language code is
      concerned: a string, another scalar (number, boolean, null; hashable)
      or a list or object (unhashable). */
  datatype Json = JString(s: string) | JScalar(text: string) | JContainer

  /** The settings file: absent, not readable as JSON, JSON whose top level
      is not an object, or an object. */
  datatype ConfigFile = Missing | Malformed | NonObject | Object(fields: map<string, Json>)

  datatype SaveResult = SaveResult(ok: bool, file: ConfigFile)

  /** The language value a load reads, `None` when there is none to read:
      the file is missing, or reading raises (unreadable JSON, a top level
      without `.get`, an unhashable value handed to the language check).
      An object without a `language` entry reads as `"ru"`. */
  function ReadLanguage(file: ConfigFile): (v: Option<Json>)
    ensures v.Some? <==> file.Object? && ("language" in file.fields ==> !file.fields["language"].JContainer?)
    ensures v.Some? ==> v.value == if "language" in file.fields then file.fields["language"] else JString(DEFAULT_LANGUAGE)
  {
    match file
    case Object(fields) =>
      if "language" !in fields then Some(JString(DEFAULT_LANGUAGE))
      else if fields["language"].JContainer? then None
      else Some(fields["language"])
    case _ => None
  }

  /** `dict.get(key, key)`. */
  function Lookup(table: map<string, string>, key: string): (text: string)
    ensures key in table ==> text == table[key] && text in table.Values
    ensures key !in table ==> text == key
  {
    if key in table then table[key] else key
  }

  /** The interface-language state: the current language and the tables. */
  class Localization {
    var currentLanguage: string
    var translations: map<string, map<string, string>>

    predicate Valid()
      reads this
    {
      currentLanguage in translations
    }

    constructor()
      ensures currentLanguage == DEFAULT_LANGUAGE && translations == Translations()
      ensures Valid()
    {
      currentLanguage := DEFAULT_LANGUAGE;
      translations := Translations();
      TranslationLanguages();
    }

    /** Switches to a known language and reports whether it did. */
    method SetLanguage(code: string) returns (ok: bool)
      modifies this
      ensures ok <==> code in translations
      ensures currentLanguage == if ok then code else old(currentLanguage)
      ensures translations == old(translations)
      ensures old(Valid()) ==> Valid()
    {
      if code in translations {
        currentLanguage := code;
        return true;
      }
      return false;
    }

    /** The text for `key` in the current language, the key itself when the
        language lacks it, filled in from `kwargs` when there are any; when
        anything raises (a failed format, an unknown current language) the
        key is returned. */
    function GetText(key: string, kwargs: map<string, string>): (text: string)
      reads this
      ensures currentLanguage !in translations ==> text == key
      ensures currentLanguage in translations && kwargs == map[] ==>
        text == Lookup(translations[currentLanguage], key)
      ensures currentLanguage in translations && kwargs != map[] ==>
        var entry := Lookup(translations[currentLanguage], key);
        text == if Format(entry, kwargs).Some? then Format(entry, kwargs).value else key
    {
      if currentLanguage !in translations then key
      else
        var entry := Lookup(translations[currentLanguage], key);
        if kwargs == map[] then entry
        else match Format(entry, kwargs)
          case Some(t) => t
          case None => key
    }

    /** Writes the current language into the settings object, keeping every
        other setting; nothing is written when the file cannot be read as a
        JSON object or cannot be opened for writing. */
    function SaveLanguagePreference(file: ConfigFile, writable: bool): (r: SaveResult)
      reads this
      ensures r.ok <==> writable && (file.Missing? || file.Object?)
      ensures !r.ok ==> r.file == file
      ensures r.ok ==> (r.file.Object? && "language" in r.file.fields &&
        r.file.fields["language"] == JString(currentLanguage))
      ensures r.ok ==> r.file.fields.Keys == (if file.Object? then file.fields.Keys else {}) + {"language"}
      ensures r.ok && file.Object? ==>
        forall k :: k in file.fields && k != "language" ==> r.file.fields[k] == file.fields[k]
    {
      if !writable then SaveResult(false, file)
      else match file
        case Missing => SaveResult(true, Object(map["language" := JString(currentLanguage)]))
        case Object(fields) => SaveResult(true, Object(fields["language" := JString(currentLanguage)]))
        case _ => SaveResult(false, file)
    }

    /** Reads the stored language, switches to it when it is a known code,
        and returns it whether or not it was known; `"ru"` when there was
        nothing to read. */
    method LoadLanguagePreference(file: ConfigFile) returns (language: Json)
      modifies this
      ensures language == ReadLanguage(file).GetOr(JString(DEFAULT_LANGUAGE))
      ensures currentLanguage ==
        if ReadLanguage(file).Some? && language.JString? && language.s in translations then language.s
        else old(currentLanguage)
      ensures translations == old(translations)
      ensures old(Valid()) ==> Valid()
    {
      var read := ReadLanguage(file);
      if read.None? {
        return JString(DEFAULT_LANGUAGE);
      }
      language := read.value;
      if language.JString? {
        var _ := SetLanguage(language.s);
      }
    }
  }

  /** A missing settings file yields `"ru"` and changes nothing. */
  lemma MissingFileReadsNothing()
    ensures ReadLanguage(Missing) == None
    ensures ReadLanguage(Missing).GetOr(JString(DEFAULT_LANGUAGE)) == JString(DEFAULT_LANGUAGE)
  {
  }

  /** A stored code is returned as read, whether or not it is a language. */
  lemma StoredCodeReturned(fields: map<string, Json>, code: string)
    requires "language" in fields && fields["language"] == JString(code)
    ensures ReadLanguage(Object(fields)) == Some(JString(code))
  {
  }

  /** A successful save followed by a load reads back the saved language. */
  lemma SaveThenLoad(l: Localization, file: ConfigFile, writable: bool)
    ensures l.SaveLanguagePreference(file, writable).ok ==>
      ReadLanguage(l.SaveLanguagePreference(file, writable).file) == Some(JString(l.currentLanguage))
  {
  }

  /** Saving twice is saving once. */
  lemma SaveIdempotent(l: Localization, file: ConfigFile)
    ensures l.SaveLanguagePreference(file, true).ok ==>
      l.SaveLanguagePreference(l.SaveLanguagePreference(file, true).file, true) ==
      l.SaveLanguagePreference(file, true)
  {
    if file.Object? {
      var f := file.fields["language" := JString(l.currentLanguage)];
      assert f["language" := JString(l.currentLanguage)] == f;
    }
  }

  /** When some field of the text has no argument the key comes back
      instead of an exception. */
  lemma MissingArgumentGivesKey(l: Localization, key: string, kwargs: map<string, string>, k: nat)
    requires l.Valid() && kwargs != map[]
    requires Fields(Lookup(l.translations[l.currentLanguage], key)).Some?
    requires k < |Fields(Lookup(l.translations[l.currentLanguage], key)).value|
    requires Fields(Lookup(l.translations[l.currentLanguage], key)).value[k] !in kwargs
    ensures l.GetText(key, kwargs) == key
  {
    FormatSucceedsIff(Lookup(l.translations[l.currentLanguage], key), kwargs);
  }

  /** Arguments do not change a text without fields. */
  lemma PlainTextIgnoresArguments(l: Localization, key: string, kwargs: map<string, string>)
    requires l.Valid() && Plain(Lookup(l.translations[l.currentLanguage], key))
    ensures l.GetText(key, kwargs) == l.GetText(key, map[])
  {
    PlainTextFormatsToItself(Lookup(l.translations[l.currentLanguage], key), kwargs);
  }

  // ----- the sections of the two tables, in the order they are written -----

  lemma PlainFields(s: string)
    requires Plain(s)
    ensures Fields(s) == Some([])
  {
    PlainTextFormatsToItself(s, map[]);
  }

  /** The fields of a text between two plain texts are its own. */
  lemma FieldsBetweenPlain(a: string, t: string, z: string, ft: seq<string>)
    requires Plain(a) && Plain(z) && Fields(t) == Some(ft)
    ensures Fields(a + t + z) == Some(ft)
  {
    PlainFields(a);
    PlainFields(z);
    var empty: seq<string> := [];
    FieldsAppend(a, t, empty, ft);
    FieldsAppend(a + t, z, empty + ft, empty);
    assert empty + ft + empty == ft;
  }

  /** A template with one field between plain texts. */
  lemma OneFieldTemplate(a: string, n: string, z: string)
    requires Plain(a) && Plain(z) && BareName(n) && '}' !in n
    ensures Fields(a + ("{" + n + "}") + z) == Some([n])
  {
    FieldAlone(n);
    FieldsBetweenPlain(a, "{" + n + "}", z, [n]);
  }

  /** A template with two fields between plain texts. */
  lemma TwoFieldTemplate(a: string, n1: string, m: string, n2: string, z: string)
    requires Plain(a) && Plain(m) && Plain(z)
    requires BareName(n1) && '}' !in n1 && BareName(n2) && '}' !in n2
    ensures Fields(a + ("{" + n1 + "}") + m + ("{" + n2 + "}") + z) == Some([n1, n2])
  {
    FieldAlone(n1);
    FieldsBetweenPlain(a, "{" + n1 + "}", m, [n1]);
    FieldAlone(n2);
    FieldsAppend(a + ("{" + n1 + "}") + m, "{" + n2 + "}", [n1], [n2]);
    PlainFields(z);
    var empty: seq<string> := [];
    FieldsAppend(a + ("{" + n1 + "}") + m + ("{" + n2 + "}"), z, [n1] + [n2], empty);
    assert [n1] + [n2] + empty == [n1, n2];
  }

  lemma RuCountFieldsText()
    ensures Fields("Аддонов: " + "{total}" + " (" + "{enabled}" + " вкл)") == Some(["total", "enabled"])
  {
    assert Plain("Аддонов: ") && Plain(" (") && Plain(" вкл)");
    assert "total"[0] == 't' && "enabled"[0] == 'e';
    assert "{total}" == "{" + "total" + "}" && "{enabled}" == "{" + "enabled" + "}";
    TwoFieldTemplate("Аддонов: ", "total", " (", "enabled", " вкл)");
  }

  lemma RuCountFields()
    ensures Fields(RuDescriptions()["addons_count"]) == Some(["total", "enabled"])
  {
    RuCountFieldsText();
  }

  lemma EnCountFieldsText()
    ensures Fields("Addons: " + "{total}" + " (" + "{enabled}" + " enabled)") == Some(["total", "enabled"])
  {
    assert Plain("Addons: ") && Plain(" (") && Plain(" enabled)");
    assert "total"[0] == 't' && "enabled"[0] == 'e';
    assert "{total}" == "{" + "total" + "}" && "{enabled}" == "{" + "enabled" + "}";
    TwoFieldTemplate("Addons: ", "total", " (", "enabled", " enabled)");
  }

  lemma EnCountFields()
    ensures Fields(EnDescriptions()["addons_count"]) == Some(["total", "enabled"])
  {
    EnCountFieldsText();
  }

  lemma PlainAppend(a: string, b: string)
    requires Plain(a) && Plain(b)
    ensures Plain(a + b)
  {
  }

  lemma NameIsBare()
    ensures BareName("name") && '}' !in "name" && "{name}" == "{" + "name" + "}"
  {
    assert "name"[0] == 'n';
  }

  lemma RuDeleteFieldsText()
    ensures Fields("Вы уверены, " + "что хотите " + "удалить " + "этот аддон?" + "<br><br><b>" + "{name}" + "</b><br><br>" + "Это " + "действие " + "нельзя " + "отменить.") == Some(["name"])
  {
    var a := "Вы уверены, " + "что хотите " + "удалить " + "этот аддон?" + "<br><br><b>";
    var z := "</b><br><br>" + "Это " + "действие " + "нельзя " + "отменить.";
    RuDeleteFieldsHead();
    RuDeleteFieldsTail();
    NameIsBare();
    OneFieldTemplate(a, "name", z);
    assert "Вы уверены, " + "что хотите " + "удалить " + "этот аддон?" + "<br><br><b>" + "{name}" + "</b><br><br>" + "Это " + "действие " + "нельзя " + "отменить." == a + ("{" + "name" + "}") + z;
  }

  lemma RuDeleteFieldsHead()
    ensures Plain("Вы уверены, " + "что хотите " + "удалить " + "этот аддон?" + "<br><br><b>")
  {
    assert Plain("Вы уверены, ");
    assert Plain("что хотите ");
    PlainAppend("Вы уверены, ", "что хотите ");
    assert Plain("удалить ");
    PlainAppend("Вы уверены, " + "что хотите ", "удалить ");
    assert Plain("этот аддон?");
    PlainAppend("Вы уверены, " + "что хотите " + "удалить ", "этот аддон?");
    assert Plain("<br><br><b>");
    PlainAppend("Вы уверены, " + "что хотите " + "удалить " + "этот аддон?", "<br><br><b>");
  }

  lemma RuDeleteFieldsTail()
    ensures Plain("</b><br><br>" + "Это " + "действие " + "нельзя " + "отменить.")
  {
    assert Plain("</b><br><br>");
    assert Plain("Это ");
    PlainAppend("</b><br><br>", "Это ");
    assert Plain("действие ");
    PlainAppend("</b><br><br>" + "Это ", "действие ");
    assert Plain("нельзя ");
    PlainAppend("</b><br><br>" + "Это " + "действие ", "нельзя ");
    assert Plain("отменить.");
    PlainAppend("</b><br><br>" + "Это " + "действие " + "нельзя ", "отменить.");
  }

  lemma RuDeleteFields()
    ensures Fields(RuDialogs()["dialog_delete_addon_text"]) == Some(["name"])
  {
    RuDeleteFieldsText();
  }

  lemma EnDeleteFieldsText()
    ensures Fields("Are you " + "sure you " + "want to " + "delete this " + "addon?" + "<br><br><b>" + "{name}" + "</b><br><br>" + "This action " + "cannot be " + "undone.") == Some(["name"])
  {
    var a := "Are you " + "sure you " + "want to " + "delete this " + "addon?" + "<br><br><b>";
    var z := "</b><br><br>" + "This action " + "cannot be " + "undone.";
    EnDeleteFieldsHead();
    EnDeleteFieldsTail();
    NameIsBare();
    OneFieldTemplate(a, "name", z);
    assert "Are you " + "sure you " + "want to " + "delete this " + "addon?" + "<br><br><b>" + "{name}" + "</b><br><br>" + "This action " + "cannot be " + "undone." == a + ("{" + "name" + "}") + z;
  }

  lemma EnDeleteFieldsHead()
    ensures Plain("Are you " + "sure you " + "want to " + "delete this " + "addon?" + "<br><br><b>")
  {
    assert Plain("Are you ");
    assert Plain("sure you ");
    PlainAppend("Are you ", "sure you ");
    assert Plain("want to ");
    PlainAppend("Are you " + "sure you ", "want to ");
    assert Plain("delete this ");
    PlainAppend("Are you " + "sure you " + "want to ", "delete this ");
    assert Plain("addon?");
    PlainAppend("Are you " + "sure you " + "want to " + "delete this ", "addon?");
    assert Plain("<br><br><b>");
    PlainAppend("Are you " + "sure you " + "want to " + "delete this " + "addon?", "<br><br><b>");
  }

  lemma EnDeleteFieldsTail()
    ensures Plain("</b><br><br>" + "This action " + "cannot be " + "undone.")
  {
    assert Plain("</b><br><br>");
    assert Plain("This action ");
    PlainAppend("</b><br><br>", "This action ");
    assert Plain("cannot be ");
    PlainAppend("</b><br><br>" + "This action ", "cannot be ");
    assert Plain("undone.");
    PlainAppend("</b><br><br>" + "This action " + "cannot be ", "undone.");
  }

  lemma EnDeleteFields()
    ensures Fields(EnDialogs()["dialog_delete_addon_text"]) == Some(["name"])
  {
    EnDeleteFieldsText();
  }

  lemma MainKeys() ensures RuMain().Keys == EnMain().Keys {}

  lemma TabsKeys() ensures RuTabs().Keys == EnTabs().Keys {}

  lemma ButtonsKeys() ensures RuButtons().Keys == EnButtons().Keys {}

  lemma DescriptionsKeys() ensures RuDescriptions().Keys == EnDescriptions().Keys {}

  lemma SettingsKeys() ensures RuSettings().Keys == EnSettings().Keys {}

  lemma MessagesKeys() ensures RuMessages().Keys == EnMessages().Keys {}

  lemma DialogsKeys() ensures RuDialogs().Keys == EnDialogs().Keys {}

  lemma StatusesKeys() ensures RuStatuses().Keys == EnStatuses().Keys {}

  lemma ErrorsKeys() ensures RuErrors().Keys == EnErrors().Keys {}

  lemma UpdatesKeys() ensures RuUpdates().Keys == EnUpdates().Keys {}

  lemma HelpKeys() ensures RuHelp().Keys == EnHelp().Keys {}

  function RuMain(): map<string, string> {
    map[
      "app_title" :=
        "L4D2 Addon " + "Manager",
      "loading_addons" :=
        "Загрузка " + "аддонов",
      "initializing" :=
        "Инициализация...",
      "scanning_folder" :=
        "Сканирование " + "папки...",
      "loading_steam_info" :=
        "Загрузка " + "информации " + "из Steam...",
      "ready" := "Готово!"
    ]
  }

  function RuTabs(): map<string, string> {
    map[
      "tab_addons" := "Аддоны",
      "tab_pirate_addons" := "Аддоны Пиратка",
      "tab_settings" := "Настройки",
      "tab_help" := "Справка",
      "tab_contacts" := "Контакты"
    ]
  }

  function RuButtons(): map<string, string> {
    map[
      "btn_support_project" :=
        "Поддержать " + "проект",
      "btn_updates" := "Обновления",
      "btn_github" := "GitHub",
      "btn_enable_all" := "Включить все",
      "btn_disable_all" := "Выключить все",
      "btn_refresh" := "Обновить",
      "btn_settings" := "Настройки",
      "btn_ok" := "ОК",
      "btn_cancel" := "Отмена",
      "btn_yes" := "Да",
      "btn_no" := "Нет",
      "btn_delete" := "Удалить",
      "btn_reinstall" := "Переустановить",
      "btn_browse" := "Обзор",
      "btn_save" := "Сохранить",
      "btn_reset" := "Сброс"
    ]
  }

  function RuDescriptions(): map<string, string> {
    map[
      "addons_description" :=
        "Управление " + "аддонами из " + "Steam " + "Workshop. " + "Включайте/выключайте " + "моды одним " + "кликом.",
      "pirate_addons_description" :=
        "Добавляйте " + "моды в " + "gameinfo.txt " + "для " + "принудительной " + "загрузки на " + "серверах.",
      "search_placeholder" := "Поиск...",
      "addons_count" :=
        "Аддонов: " + "{total}" + " (" + "{enabled}" + " вкл)"
    ]
  }

  function RuSettings(): map<string, string> {
    map[
      "settings_game_path" := "Путь к игре",
      "settings_language" :=
        "Язык " + "интерфейса",
      "settings_animations" := "Анимации",
      "settings_auto_updates" := "Автообновления",
      "settings_steam_integration" :=
        "Интеграция " + "со Steam",
      "settings_backup" :=
        "Резервные " + "копии"
    ]
  }

  function RuMessages(): map<string, string> {
    map[
      "msg_select_game_folder" :=
        "Выберите " + "папку с " + "игрой Left " + "4 Dead 2",
      "msg_invalid_game_folder" :=
        "Выбранная " + "папка не " + "содержит " + "Left 4 Dead " + "2",
      "msg_addon_enabled" := "Аддон включен",
      "msg_addon_disabled" := "Аддон выключен",
      "msg_all_addons_enabled" :=
        "Все аддоны " + "включены",
      "msg_all_addons_disabled" :=
        "Все аддоны " + "выключены",
      "msg_addon_deleted" := "Аддон удален",
      "msg_settings_saved" :=
        "Настройки " + "сохранены"
    ]
  }

  function RuDialogs(): map<string, string> {
    map[
      "dialog_delete_addon" := "Удалить аддон",
      "dialog_delete_addon_text" :=
        "Вы уверены, " + "что хотите " + "удалить " + "этот аддон?" + "<br><br><b>" + "{name}" + "</b><br><br>" + "Это " + "действие " + "нельзя " + "отменить.",
      "dialog_first_launch" :=
        "Добро " + "пожаловать!",
      "dialog_first_launch_text" :=
        "Добро " + "пожаловать " + "в L4D2 " + "Addon " + "Manager!" + "<br><br>" + "Для начала " + "работы " + "укажите " + "папку с " + "игрой Left " + "4 Dead 2.",
      "dialog_language_selection" := "Выбор языка",
      "dialog_language_selection_text" :=
        "Выберите " + "предпочитаемый " + "язык " + "интерфейса:"
    ]
  }

  function RuStatuses(): map<string, string> {
    map[
      "status_gameinfo_found" :=
        "✓ " + "gameinfo.txt " + "найден",
      "status_gameinfo_not_found" :=
        "✗ " + "gameinfo.txt " + "не найден",
      "status_workshop_found" :=
        "✓ workshop " + "найден",
      "status_workshop_not_found" :=
        "✗ workshop " + "не найден"
    ]
  }

  function RuErrors(): map<string, string> {
    map[
      "error_loading_addons" :=
        "Ошибка " + "загрузки " + "аддонов",
      "error_steam_api" :=
        "Ошибка " + "Steam API",
      "error_file_operation" :=
        "Ошибка " + "файловой " + "операции",
      "error_network" := "Ошибка сети"
    ]
  }

  function RuUpdates(): map<string, string> {
    map[
      "update_available" :=
        "Доступно " + "обновление",
      "update_downloading" :=
        "Загрузка " + "обновления...",
      "update_installing" :=
        "Установка " + "обновления...",
      "update_completed" :=
        "Обновление " + "завершено",
      "update_error" :=
        "Ошибка " + "обновления"
    ]
  }

  function RuHelp(): map<string, string> {
    map[
      "help_title" :=
        "Справка по " + "использованию",
      "help_addons" :=
        "Как " + "управлять " + "аддонами",
      "help_installation" :=
        "Установка и " + "настройка",
      "help_troubleshooting" :=
        "Решение " + "проблем"
    ]
  }

  function EnMain(): map<string, string> {
    map[
      "app_title" :=
        "L4D2 Addon " + "Manager",
      "loading_addons" := "Loading addons",
      "initializing" :=
        "Initializing...",
      "scanning_folder" :=
        "Scanning " + "folder...",
      "loading_steam_info" :=
        "Loading " + "Steam " + "information...",
      "ready" := "Ready!"
    ]
  }

  function EnTabs(): map<string, string> {
    map[
      "tab_addons" := "Addons",
      "tab_pirate_addons" := "Pirate Addons",
      "tab_settings" := "Settings",
      "tab_help" := "Help",
      "tab_contacts" := "Contacts"
    ]
  }

  function EnButtons(): map<string, string> {
    map[
      "btn_support_project" :=
        "Support " + "Project",
      "btn_updates" := "Updates",
      "btn_github" := "GitHub",
      "btn_enable_all" := "Enable All",
      "btn_disable_all" := "Disable All",
      "btn_refresh" := "Refresh",
      "btn_settings" := "Settings",
      "btn_ok" := "OK",
      "btn_cancel" := "Cancel",
      "btn_yes" := "Yes",
      "btn_no" := "No",
      "btn_delete" := "Delete",
      "btn_reinstall" := "Reinstall",
      "btn_browse" := "Browse",
      "btn_save" := "Save",
      "btn_reset" := "Reset"
    ]
  }

  function EnDescriptions(): map<string, string> {
    map[
      "addons_description" :=
        "Manage " + "addons from " + "Steam " + "Workshop. " + "Enable/disable " + "mods with " + "one click.",
      "pirate_addons_description" :=
        "Add mods to " + "gameinfo.txt " + "for forced " + "loading on " + "servers.",
      "search_placeholder" := "Search...",
      "addons_count" :=
        "Addons: " + "{total}" + " (" + "{enabled}" + " enabled)"
    ]
  }

  function EnSettings(): map<string, string> {
    map[
      "settings_game_path" := "Game Path",
      "settings_language" :=
        "Interface " + "Language",
      "settings_animations" := "Animations",
      "settings_auto_updates" := "Auto Updates",
      "settings_steam_integration" :=
        "Steam " + "Integration",
      "settings_backup" := "Backups"
    ]
  }

  function EnMessages(): map<string, string> {
    map[
      "msg_select_game_folder" :=
        "Select Left " + "4 Dead 2 " + "game folder",
      "msg_invalid_game_folder" :=
        "Selected " + "folder does " + "not contain " + "Left 4 Dead " + "2",
      "msg_addon_enabled" := "Addon enabled",
      "msg_addon_disabled" := "Addon disabled",
      "msg_all_addons_enabled" :=
        "All addons " + "enabled",
      "msg_all_addons_disabled" :=
        "All addons " + "disabled",
      "msg_addon_deleted" := "Addon deleted",
      "msg_settings_saved" := "Settings saved"
    ]
  }

  function EnDialogs(): map<string, string> {
    map[
      "dialog_delete_addon" := "Delete Addon",
      "dialog_delete_addon_text" :=
        "Are you " + "sure you " + "want to " + "delete this " + "addon?" + "<br><br><b>" + "{name}" + "</b><br><br>" + "This action " + "cannot be " + "undone.",
      "dialog_first_launch" := "Welcome!",
      "dialog_first_launch_text" :=
        "Welcome to " + "L4D2 Addon " + "Manager!" + "<br><br>" + "To get " + "started, " + "please " + "specify the " + "Left 4 Dead " + "2 game " + "folder.",
      "dialog_language_selection" :=
        "Language " + "Selection",
      "dialog_language_selection_text" :=
        "Please " + "select your " + "preferred " + "interface " + "language:"
    ]
  }

  function EnStatuses(): map<string, string> {
    map[
      "status_gameinfo_found" :=
        "✓ " + "gameinfo.txt " + "found",
      "status_gameinfo_not_found" :=
        "✗ " + "gameinfo.txt " + "not found",
      "status_workshop_found" :=
        "✓ workshop " + "found",
      "status_workshop_not_found" :=
        "✗ workshop " + "not found"
    ]
  }

  function EnErrors(): map<string, string> {
    map[
      "error_loading_addons" :=
        "Error " + "loading " + "addons",
      "error_steam_api" :=
        "Steam API " + "error",
      "error_file_operation" :=
        "File " + "operation " + "error",
      "error_network" := "Network error"
    ]
  }

  function EnUpdates(): map<string, string> {
    map[
      "update_available" :=
        "Update " + "Available",
      "update_downloading" :=
        "Downloading " + "update...",
      "update_installing" :=
        "Installing " + "update...",
      "update_completed" :=
        "Update " + "completed",
      "update_error" := "Update error"
    ]
  }

  function EnHelp(): map<string, string> {
    map[
      "help_title" := "Usage Guide",
      "help_addons" :=
        "How to " + "manage " + "addons",
      "help_installation" :=
        "Installation " + "and setup",
      "help_troubleshooting" :=
        "Troubleshooting"
    ]
  }
}
