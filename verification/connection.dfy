/**
 Credentials and the data-store connection string (`SQLConnection`).

 The password is decrypted by an external key-management call, which is
 reduced here to its outcome. The connection string is a fixed template over
 the server, database, user and decrypted password. To say what the template
 promises, this module also defines a reader for such strings (split at `;`,
 then at the first `=`) and proves that it recovers the four values, in order,
 together with the fixed settings.
 */
module Connection {

  /** Outcome of decrypting the stored password: either its plaintext, or a
      failure of the base64 decode or of the key-management call. */
  datatype DecryptOutcome = Decrypted(plaintext: string) | DecryptFailed

  /** The values the connection string is built from. */
  datatype ConnectionParameters = ConnectionParameters(server: string, database: string, username: string, password: string)

  /** A `key=value` setting of a connection string. */
  datatype Setting = Setting(key: string, value: string)

  /** One `key=value;` field of the template. */
  function Field(key: string, value: string): string
  {
    key + "=" + value + ";"
  }

  /** The connection string the handler builds from its parameters: the
      template's seven fields in order, the last one the 30-second timeout. */
  function ConnectionString(p: ConnectionParameters): (s: string)
    ensures |s| >= |Field("Data Source", p.server)| + |Field("Connection Timeout", "30")|
    ensures s[..|Field("Data Source", p.server)|] == Field("Data Source", p.server)
    ensures s[|s| - |Field("Connection Timeout", "30")|..] == Field("Connection Timeout", "30")
  {
    Field("Data Source", p.server) + Field("Initial Catalog", p.database) + Field("User ID", p.username)
      + Field("Password", p.password) + Field("persist security info", "True")
      + Field("MultipleActiveResultSets", "True") + Field("Connection Timeout", "30")
  }

  /** The settings the template writes, in the order it writes them. */
  function IntendedSettings(p: ConnectionParameters): seq<Setting>
  {
    [Setting("Data Source", p.server), Setting("Initial Catalog", p.database), Setting("User ID", p.username),
     Setting("Password", p.password), Setting("persist security info", "True"),
     Setting("MultipleActiveResultSets", "True"), Setting("Connection Timeout", "30")]
  }

  /** Each piece followed by a `;`. */
  function Terminated(pieces: seq<string>): string
  {
    if pieces == [] then "" else (pieces[0] + ";") + Terminated(pieces[1..])
  }

  /** The `key=value` text of a setting. */
  function SettingText(s: Setting): string
  {
    s.key + "=" + s.value
  }

  /** The settings' texts, in order. */
  function SettingTexts(settings: seq<Setting>): (texts: seq<string>)
    ensures |texts| == |settings|
    ensures forall i :: 0 <= i < |settings| ==> texts[i] == SettingText(settings[i])
  {
    if settings == [] then [] else [SettingText(settings[0])] + SettingTexts(settings[1..])
  }

  /** The pieces of `s` between occurrences of `sep`; always at least one. */
  function Split(s: string, sep: char): (pieces: seq<string>)
    ensures |pieces| >= 1
    decreases |s|
  {
    if s == [] then [""]
    else
      var rest := Split(s[1..], sep);
      if s[0] == sep then [""] + rest
      else [[s[0]] + rest[0]] + rest[1..]
  }

  /** Splitting at a first separator peels off the piece in front of it. */
  lemma {:induction false} SplitAtFirst(a: string, sep: char, b: string)
    requires sep !in a
    ensures Split(a + [sep] + b, sep) == [a] + Split(b, sep)
    decreases |a|
  {
    if a == [] {
      assert a + [sep] + b == [sep] + b;
      assert ([sep] + b)[1..] == b;
    } else {
      var s := a + [sep] + b;
      assert s[0] == a[0];
      assert s[1..] == a[1..] + [sep] + b;
      SplitAtFirst(a[1..], sep, b);
      assert [a[0]] + a[1..] == a;
    }
  }

  /** A setting split at its first `=`; a piece without `=` is all key. */
  function ParseSetting(piece: string): Setting
    decreases |piece|
  {
    if piece == [] then Setting("", "")
    else if piece[0] == '=' then Setting("", piece[1..])
    else
      var rest := ParseSetting(piece[1..]);
      Setting([piece[0]] + rest.key, rest.value)
  }

  /** A key without `=` followed by `=` and any value parses back to both. */
  lemma {:induction false} ParseSettingOf(key: string, value: string)
    requires '=' !in key
    ensures ParseSetting(key + "=" + value) == Setting(key, value)
    decreases |key|
  {
    var piece := key + "=" + value;
    if key == [] {
      assert piece == "=" + value;
      assert piece[1..] == value;
    } else {
      assert piece[0] == key[0];
      assert piece[1..] == key[1..] + "=" + value;
      ParseSettingOf(key[1..], value);
      assert [key[0]] + key[1..] == key;
    }
  }

  /** The settings of a list of pieces, empty pieces skipped. */
  function ParsePieces(pieces: seq<string>): seq<Setting>
  {
    if pieces == [] then []
    else if pieces[0] == "" then ParsePieces(pieces[1..])
    else [ParseSetting(pieces[0])] + ParsePieces(pieces[1..])
  }

  /** Reads a connection string back into its settings. */
  function ReadSettings(s: string): seq<Setting>
  {
    ParsePieces(Split(s, ';'))
  }

  /** One step of `SplitTerminated`: a first piece without `;` in front. */
  lemma SplitTerminatedStep(first: string, others: seq<string>, tail: string)
    requires ';' !in first
    requires Split(Terminated(others) + tail, ';') == others + Split(tail, ';')
    ensures Split(Terminated([first] + others) + tail, ';') == [first] + others + Split(tail, ';')
  {
    var rest := Terminated(others) + tail;
    assert ([first] + others)[1..] == others;
    assert Terminated([first] + others) + tail == first + [';'] + rest;
    SplitAtFirst(first, ';', rest);
  }

  /** Splitting pieces each followed by `;`, then a tail, gives the pieces
      back, then the pieces of the tail. */
  lemma {:induction false} SplitTerminated(pieces: seq<string>, tail: string)
    requires forall i :: 0 <= i < |pieces| ==> ';' !in pieces[i]
    ensures Split(Terminated(pieces) + tail, ';') == pieces + Split(tail, ';')
    decreases |pieces|
  {
    if pieces == [] {
      assert Terminated(pieces) + tail == tail;
    } else {
      assert pieces == [pieces[0]] + pieces[1..];
      SplitTerminated(pieces[1..], tail);
      SplitTerminatedStep(pieces[0], pieces[1..], tail);
    }
  }

  /** Reading the texts of settings whose keys hold no `=`, then further
      pieces, gives the settings back, then the settings of those pieces. */
  lemma {:induction false} ParseSettingTexts(settings: seq<Setting>, rest: seq<string>)
    requires forall i :: 0 <= i < |settings| ==> '=' !in settings[i].key
    ensures ParsePieces(SettingTexts(settings) + rest) == settings + ParsePieces(rest)
    decreases |settings|
  {
    if settings == [] {
      assert SettingTexts(settings) + rest == rest;
    } else {
      var texts := SettingTexts(settings) + rest;
      assert texts[0] == SettingText(settings[0]);
      assert texts[0] != "";
      assert texts[1..] == SettingTexts(settings[1..]) + rest;
      ParseSettingOf(settings[0].key, settings[0].value);
      ParseSettingTexts(settings[1..], rest);
    }
  }

  /** Adding a piece at the end adds it and its `;` at the end. */
  lemma {:induction false} TerminatedSnoc(pieces: seq<string>, last: string)
    ensures Terminated(pieces + [last]) == Terminated(pieces) + (last + ";")
    decreases |pieces|
  {
    if pieces == [] {
      assert pieces + [last] == [last];
      assert [last][1..] == [];
    } else {
      assert (pieces + [last])[0] == pieces[0];
      assert (pieces + [last])[1..] == pieces[1..] + [last];
      TerminatedSnoc(pieces[1..], last);
    }
  }

  /** One more setting text at the end of the pieces adds it and its `;`. */
  lemma TerminatedStep(texts: seq<string>, k: nat)
    requires k < |texts|
    ensures Terminated(texts[..k + 1]) == Terminated(texts[..k]) + (texts[k] + ";")
  {
    assert texts[..k + 1] == texts[..k] + [texts[k]];
    TerminatedSnoc(texts[..k], texts[k]);
  }

  /** Seven pieces, each followed by `;`, written out. */
  lemma TerminatedSeven(texts: seq<string>)
    requires |texts| == 7
    ensures Terminated(texts) == (texts[0] + ";") + (texts[1] + ";") + (texts[2] + ";") + (texts[3] + ";")
                                 + (texts[4] + ";") + (texts[5] + ";") + (texts[6] + ";")
  {
    assert texts[..0] == [] && texts[..7] == texts;
    var c1 := texts[0] + ";";
    assert Terminated(texts[..1]) == c1 by { TerminatedStep(texts, 0); }
    var c2 := c1 + (texts[1] + ";");
    assert Terminated(texts[..2]) == c2 by { TerminatedStep(texts, 1); }
    var c3 := c2 + (texts[2] + ";");
    assert Terminated(texts[..3]) == c3 by { TerminatedStep(texts, 2); }
    var c4 := c3 + (texts[3] + ";");
    assert Terminated(texts[..4]) == c4 by { TerminatedStep(texts, 3); }
    var c5 := c4 + (texts[4] + ";");
    assert Terminated(texts[..5]) == c5 by { TerminatedStep(texts, 4); }
    var c6 := c5 + (texts[5] + ";");
    assert Terminated(texts[..6]) == c6 by { TerminatedStep(texts, 5); }
    assert Terminated(texts[..7]) == c6 + (texts[6] + ";") by { TerminatedStep(texts, 6); }
  }

  /** The template is the texts of the intended settings, each followed by `;`. */
  lemma TemplateIsTerminatedSettings(p: ConnectionParameters)
    ensures ConnectionString(p) == Terminated(SettingTexts(IntendedSettings(p)))
  {
    var texts := SettingTexts(IntendedSettings(p));
    TerminatedSeven(texts);
  }

  /** The template's fixed keys hold no `;`. */
  lemma FixedKeysHoldNoSemicolon()
    ensures ';' !in "Data Source" && ';' !in "Initial Catalog" && ';' !in "User ID" && ';' !in "Password"
    ensures ';' !in "persist security info" && ';' !in "MultipleActiveResultSets" && ';' !in "Connection Timeout"
  {
  }

  /** The template's fixed keys hold no `=`. */
  lemma FixedKeysHoldNoEquals()
    ensures '=' !in "Data Source" && '=' !in "Initial Catalog" && '=' !in "User ID" && '=' !in "Password"
    ensures '=' !in "persist security info" && '=' !in "MultipleActiveResultSets" && '=' !in "Connection Timeout"
  {
  }

  /** No setting's text holds `;`, and no key holds `=`, when none of the four
      parameters holds `;`. */
  lemma IntendedSettingsAreSeparable(p: ConnectionParameters)
    requires ';' !in p.server && ';' !in p.database && ';' !in p.username && ';' !in p.password
    ensures forall i :: 0 <= i < |IntendedSettings(p)| ==>
              ';' !in SettingText(IntendedSettings(p)[i]) && '=' !in IntendedSettings(p)[i].key
  {
    var settings := IntendedSettings(p);
    FixedKeysHoldNoSemicolon();
    FixedKeysHoldNoEquals();
    assert ';' !in "True" && ';' !in "30";
    forall i | 0 <= i < |settings|
      ensures ';' !in SettingText(settings[i]) && '=' !in settings[i].key
    {
      var k, v := settings[i].key, settings[i].value;
      assert ';' !in k && '=' !in k && ';' !in v by {
        if i == 0 { assert k == "Data Source"; }
        else if i == 1 { assert k == "Initial Catalog"; }
        else if i == 2 { assert k == "User ID"; }
        else if i == 3 { assert k == "Password"; }
        else if i == 4 { assert k == "persist security info" && v == "True"; }
        else if i == 5 { assert k == "MultipleActiveResultSets" && v == "True"; }
        else { assert k == "Connection Timeout" && v == "30"; }
      }
      assert ';' !in k + "=" + v;
    }
  }

  /** When none of the four values contains `;`, reading the connection string
      back yields the server, database, user and password in that order,
      followed by the fixed settings, among them a 30-second timeout. */
  lemma ConnectionStringRoundTrip(p: ConnectionParameters)
    requires ';' !in p.server && ';' !in p.database && ';' !in p.username && ';' !in p.password
    ensures ReadSettings(ConnectionString(p)) == IntendedSettings(p)
  {
    var settings := IntendedSettings(p);
    var texts := SettingTexts(settings);
    TemplateIsTerminatedSettings(p);
    IntendedSettingsAreSeparable(p);
    assert Terminated(texts) + "" == Terminated(texts);
    SplitTerminated(texts, "");
    assert Split(ConnectionString(p), ';') == texts + [""];
    ParseSettingTexts(settings, [""]);
    assert ParsePieces([""]) == [] by {
      assert [""][1..] == [];
    }
    assert settings + [] == settings;
  }

  /** Four pieces, each followed by `;`, written out. */
  lemma TerminatedFour(texts: seq<string>)
    requires |texts| == 4
    ensures Terminated(texts) == (texts[0] + ";") + (texts[1] + ";") + (texts[2] + ";") + (texts[3] + ";")
  {
    assert texts[..0] == [] && texts[..4] == texts;
    var c1 := texts[0] + ";";
    assert Terminated(texts[..1]) == c1 by { TerminatedStep(texts, 0); }
    var c2 := c1 + (texts[1] + ";");
    assert Terminated(texts[..2]) == c2 by { TerminatedStep(texts, 1); }
    var c3 := c2 + (texts[2] + ";");
    assert Terminated(texts[..3]) == c3 by { TerminatedStep(texts, 2); }
    assert Terminated(texts[..4]) == c3 + (texts[3] + ";") by { TerminatedStep(texts, 3); }
  }

  /** With a password `a;b`, the template is the four fields up to a password
      `a`, followed by `b;` and the fixed fields. */
  lemma CutTemplate(p: ConnectionParameters, a: string, b: string)
    requires p.password == a + ";" + b
    ensures ConnectionString(p)
            == Terminated(SettingTexts(IntendedSettings(p.(password := a))[..4]))
               + ((b + ";") + Field("persist security info", "True")
                  + Field("MultipleActiveResultSets", "True") + Field("Connection Timeout", "30"))
  {
    var texts := SettingTexts(IntendedSettings(p.(password := a))[..4]);
    TerminatedFour(texts);
    assert Field("Password", p.password) == Field("Password", a) + (b + ";");
  }

  /** Reading the template with a password `a;b` gives the first three
      settings, a password `a`, then whatever the rest reads as. */
  lemma ReadCutTemplate(p: ConnectionParameters, a: string, b: string)
    requires ';' !in p.server && ';' !in p.database && ';' !in p.username && ';' !in a
    requires p.password == a + ";" + b
    ensures ReadSettings(ConnectionString(p))
            == IntendedSettings(p.(password := a))[..4]
               + ParsePieces(Split((b + ";") + Field("persist security info", "True")
                                   + Field("MultipleActiveResultSets", "True") + Field("Connection Timeout", "30"), ';'))
  {
    var q := p.(password := a);
    var head := IntendedSettings(q)[..4];
    var tail := (b + ";") + Field("persist security info", "True")
                + Field("MultipleActiveResultSets", "True") + Field("Connection Timeout", "30");
    var texts := SettingTexts(head);
    CutTemplate(p, a, b);
    IntendedSettingsAreSeparable(q);
    assert forall i :: 0 <= i < |head| ==> head[i] == IntendedSettings(q)[i];
    SplitTerminated(texts, tail);
    ParseSettingTexts(head, Split(tail, ';'));
  }

  /** The template does not quote its values: a password holding `;` is cut at
      its first `;`, so the string read back carries a different password
      (the rest of it becomes a setting of its own). */
  lemma SemicolonCutsPassword(p: ConnectionParameters, a: string, b: string)
    requires ';' !in p.server && ';' !in p.database && ';' !in p.username && ';' !in a
    requires p.password == a + ";" + b
    ensures |ReadSettings(ConnectionString(p))| >= 4
    ensures ReadSettings(ConnectionString(p))[..4] == IntendedSettings(p)[..3] + [Setting("Password", a)]
    ensures ReadSettings(ConnectionString(p)) != IntendedSettings(p)
  {
    ReadCutTemplate(p, a, b);
    var q := p.(password := a);
    assert IntendedSettings(q)[..4] == IntendedSettings(p)[..3] + [Setting("Password", a)];
    assert IntendedSettings(p)[3] != Setting("Password", a) by {
      assert |p.password| > |a|;
    }
  }
}
