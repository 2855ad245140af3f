/**
 The .env file: the installer's printer (`render_env` in install.py) and the command line tool's parser
 (`read_env` in app/cli/rubikactl.py), and exactly when the parser gives back what was printed.
 */
module EnvFile {
  import opened Basics

  // ---- Python's notions of line breaks and white space ----

  /** The characters at which str.splitlines breaks a line. */
  predicate IsBreak(c: char) {
    c == '\n' || c == '\r' || c == '\U{0B}' || c == '\U{0C}' || c == '\U{1C}' || c == '\U{1D}' || c == '\U{1E}'
    || c == '\U{85}' || c == '\U{2028}' || c == '\U{2029}'
  }

  /** The characters that str.strip removes. */
  predicate IsSpace(c: char) {
    IsBreak(c) || c == ' ' || c == '\t' || c == '\U{1F}' || c == '\U{A0}' || c == '\U{1680}'
    || '\U{2000}' <= c <= '\U{200A}' || c == '\U{202F}' || c == '\U{205F}' || c == '\U{3000}'
  }

  /** The length of the first line: everything before the first line break. */
  function LineEnd(text: string): (n: nat)
    ensures n <= |text| && (n < |text| ==> IsBreak(text[n]))
    ensures forall i :: 0 <= i < n ==> !IsBreak(text[i])
  {
    if text == [] || IsBreak(text[0]) then 0 else 1 + LineEnd(text[1..])
  }

  /** A carriage return and a line feed in a row are one break. */
  function BreakLength(rest: string): nat
    requires rest != []
  {
    if |rest| >= 2 && rest[0] == '\r' && rest[1] == '\n' then 2 else 1
  }

  function SplitLines(text: string): seq<string>
    decreases |text|
  {
    if text == [] then []
    else
      var n := LineEnd(text);
      if n == |text| then [text] else [text[..n]] + SplitLines(text[n + BreakLength(text[n..])..])
  }

  function StripLeft(s: string): (r: string)
    ensures |r| <= |s| && r == s[|s| - |r|..] && (r != [] ==> !IsSpace(r[0]))
    ensures s != [] && !IsSpace(s[0]) ==> r == s
  {
    if s != [] && IsSpace(s[0]) then StripLeft(s[1..]) else s
  }

  function StripRight(s: string): (r: string)
    ensures |r| <= |s| && r == s[..|r|] && (r != [] ==> !IsSpace(r[|r| - 1]))
    ensures s != [] && !IsSpace(s[|s| - 1]) ==> r == s
  {
    if s != [] && IsSpace(s[|s| - 1]) then StripRight(s[..|s| - 1]) else s
  }

  function Strip(s: string): string {
    StripRight(StripLeft(s))
  }

  // ---- The parser ----

  function IndexOfEquals(line: string): (i: nat)
    requires '=' in line
    ensures i < |line| && line[i] == '=' && '=' !in line[..i]
  {
    if line[0] == '=' then 0
    else
      assert line == [line[0]] + line[1..];
      var i := IndexOfEquals(line[1..]);
      assert line[..1 + i] == [line[0]] + line[1..][..i];
      1 + i
  }

  predicate IsSetting(line: string) {
    line != [] && line[0] != '#' && '=' in line
  }

  function WithLine(data: map<string, string>, line: string): map<string, string> {
    if IsSetting(line) then
      var i := IndexOfEquals(line);
      data[Strip(line[..i]) := Strip(line[i + 1..])]
    else data
  }

  function ReadLines(lines: seq<string>): map<string, string> {
    if lines == [] then map[] else WithLine(ReadLines(lines[..|lines| - 1]), lines[|lines| - 1])
  }

  /** `None` stands for a file that does not exist. */
  function Parsed(file: Option<string>): map<string, string> {
    match file
    case None => map[]
    case Some(text) => ReadLines(SplitLines(text))
  }

  lemma ReadOneMore(lines: seq<string>, n: nat)
    requires n < |lines|
    ensures ReadLines(lines[..n + 1]) == WithLine(ReadLines(lines[..n]), lines[n])
  {
    hide WithLine;
    assert lines[..n + 1][..n] == lines[..n];
  }

  method ReadEnv(file: Option<string>) returns (data: map<string, string>)
    ensures data == Parsed(file)
  {
    hide Strip, SplitLines, IndexOfEquals;
    data := map[];
    if file.None? {
      return;
    }
    var lines := SplitLines(file.value);
    for n := 0 to |lines|
      invariant data == ReadLines(lines[..n])
    {
      var line := lines[n];
      ReadOneMore(lines, n);
      if line == [] || line[0] == '#' || '=' !in line {
        continue;
      }
      var i := IndexOfEquals(line);
      data := data[Strip(line[..i]) := Strip(line[i + 1..])];
    }
    assert lines[..|lines|] == lines;
  }

  // ---- The printer ----

  const TOKEN := "RUBIKA_BOT_TOKEN"
  const API_BASE_URL := "RUBIKA_API_BASE_URL"
  const OWNER_ID := "RUBIKA_OWNER_ID"
  const WEBHOOK_BASE_URL := "RUBIKA_WEBHOOK_BASE_URL"
  const WEBHOOK_SECRET := "RUBIKA_WEBHOOK_SECRET"

  datatype Answers = Answers(
    token: string,
    apiBaseUrl: string,
    webhookBaseUrl: string,
    webhookSecret: string,
    ownerId: Option<string>)

  datatype Setting = Setting(key: string, value: string)

  /** The settings that are written, in order: the optional ones only when they are not empty. */
  function Settings(x: Answers): seq<Setting> {
    [Setting(TOKEN, x.token), Setting(API_BASE_URL, x.apiBaseUrl)]
    + (if x.ownerId.Some? && x.ownerId.value != "" then [Setting(OWNER_ID, x.ownerId.value)] else [])
    + (if x.webhookBaseUrl != "" then [Setting(WEBHOOK_BASE_URL, x.webhookBaseUrl)] else [])
    + (if x.webhookSecret != "" then [Setting(WEBHOOK_SECRET, x.webhookSecret)] else [])
  }

  function LineOf(s: Setting): string {
    s.key + "=" + s.value
  }

  /** Every line followed by a line feed. */
  function Joined(settings: seq<Setting>): string {
    if settings == [] then "" else LineOf(settings[0]) + "\n" + Joined(settings[1..])
  }

  method RenderEnv(x: Answers) returns (text: string)
    ensures text == Joined(Settings(x))
  {
    var lines := [Setting(TOKEN, x.token), Setting(API_BASE_URL, x.apiBaseUrl)];
    if x.ownerId.Some? && x.ownerId.value != "" {
      lines := lines + [Setting(OWNER_ID, x.ownerId.value)];
    }
    if x.webhookBaseUrl != "" {
      lines := lines + [Setting(WEBHOOK_BASE_URL, x.webhookBaseUrl)];
    }
    if x.webhookSecret != "" {
      lines := lines + [Setting(WEBHOOK_SECRET, x.webhookSecret)];
    }
    assert lines == Settings(x);
    hide Settings, LineOf, Joined;
    NothingJoined();
    text := "";
    for i := 0 to |lines|
      invariant text + Joined(lines[i..]) == Joined(lines)
    {
      JoinOneMore(text, lines[i..]);
      assert lines[i..][1..] == lines[i + 1..];
      text := text + LineOf(lines[i]) + "\n";
    }
    assert text + "" == text;
  }

  /** The text in full: two lines that are always there, and three that are left out when empty. */
  lemma PrintedText(x: Answers)
    ensures Joined(Settings(x))
            == ("RUBIKA_BOT_TOKEN" + "=" + x.token + "\n")
               + ("RUBIKA_API_BASE_URL" + "=" + x.apiBaseUrl + "\n")
               + (if x.ownerId == None || x.ownerId == Some("") then "" else "RUBIKA_OWNER_ID" + "=" + x.ownerId.value + "\n")
               + (if x.webhookBaseUrl == "" then "" else "RUBIKA_WEBHOOK_BASE_URL" + "=" + x.webhookBaseUrl + "\n")
               + (if x.webhookSecret == "" then "" else "RUBIKA_WEBHOOK_SECRET" + "=" + x.webhookSecret + "\n")
  {
    var first, second := Setting("RUBIKA_BOT_TOKEN", x.token), Setting("RUBIKA_API_BASE_URL", x.apiBaseUrl);
    var owner := if x.ownerId == None || x.ownerId == Some("") then [] else [Setting("RUBIKA_OWNER_ID", x.ownerId.value)];
    var base := if x.webhookBaseUrl == "" then [] else [Setting("RUBIKA_WEBHOOK_BASE_URL", x.webhookBaseUrl)];
    var secret := if x.webhookSecret == "" then [] else [Setting("RUBIKA_WEBHOOK_SECRET", x.webhookSecret)];
    assert Settings(x) == [first, second] + owner + base + secret;
    hide Settings, Joined, LineOf;
    JoinedConcat([first, second] + owner + base, secret);
    JoinedConcat([first, second] + owner, base);
    JoinedConcat([first, second], owner);
    JoinedConcat([first], [second]);
    assert [first] + [second] == [first, second];
    JoinedAtMostOne([first]);
    JoinedAtMostOne([second]);
    JoinedAtMostOne(owner);
    JoinedAtMostOne(base);
    JoinedAtMostOne(secret);
  }

  lemma JoinedAtMostOne(settings: seq<Setting>)
    requires |settings| <= 1
    ensures Joined(settings) == if settings == [] then "" else settings[0].key + "=" + settings[0].value + "\n"
  {
  }

  lemma JoinedCons(first: Setting, rest: seq<Setting>)
    ensures Joined([first] + rest) == LineOf(first) + "\n" + Joined(rest)
  {
    hide LineOf;
    assert ([first] + rest)[1..] == rest;
  }

  lemma {:induction false} JoinedConcat(a: seq<Setting>, b: seq<Setting>)
    ensures Joined(a + b) == Joined(a) + Joined(b)
  {
    hide LineOf, Joined;
    if a == [] {
      assert a + b == b;
      NothingJoined();
    } else {
      JoinedConcat(a[1..], b);
      JoinedCons(a[0], a[1..]);
      JoinedCons(a[0], a[1..] + b);
      assert a == [a[0]] + a[1..] && a + b == [a[0]] + (a[1..] + b);
      Reassociate(LineOf(a[0]) + "\n", Joined(a[1..]), Joined(b));
    }
  }

  lemma Reassociate(a: string, b: string, c: string)
    ensures (a + b) + c == a + (b + c)
  {
  }

  lemma NothingJoined()
    ensures Joined([]) == ""
  {
  }

  lemma JoinOneMore(text: string, settings: seq<Setting>)
    requires settings != []
    ensures (text + LineOf(settings[0]) + "\n") + Joined(settings[1..]) == text + Joined(settings)
  {
    hide LineOf;
  }

  /** The settings as the map they stand for. */
  function AsMap(settings: seq<Setting>): map<string, string> {
    if settings == [] then map[]
    else
      var last := settings[|settings| - 1];
      AsMap(settings[..|settings| - 1])[last.key := last.value]
  }

  /** What the installer would be asked for to write a given map. */
  function AnswersOf(data: map<string, string>): Answers {
    Answers(if TOKEN in data then data[TOKEN] else "",
            if API_BASE_URL in data then data[API_BASE_URL] else "",
            if WEBHOOK_BASE_URL in data then data[WEBHOOK_BASE_URL] else "",
            if WEBHOOK_SECRET in data then data[WEBHOOK_SECRET] else "",
            if OWNER_ID in data then Some(data[OWNER_ID]) else None)
  }

  // ---- The round trip ----

  /** No line break inside, no white space around. */
  predicate Clean(value: string) {
    (forall i :: 0 <= i < |value| ==> !IsBreak(value[i]))
    && (value != [] ==> !IsSpace(value[0]) && !IsSpace(value[|value| - 1]))
  }

  ghost predicate AllClean(settings: seq<Setting>) {
    forall i :: 0 <= i < |settings| ==> Clean(settings[i].value)
  }

  /** A key without white space, '=' and '#', as all the installer's keys are. */
  predicate PlainKey(key: string) {
    key != [] && forall i :: 0 <= i < |key| ==> !IsSpace(key[i]) && key[i] != '=' && key[i] != '#'
  }

  lemma StripClean(s: string)
    requires s != [] ==> !IsSpace(s[0]) && !IsSpace(s[|s| - 1])
    ensures Strip(s) == s
  {
  }

  /** Stripping the value part of one line leaves a clean value. */
  lemma StripIsClean(s: string)
    requires forall i :: 0 <= i < |s| ==> !IsBreak(s[i])
    ensures Clean(Strip(s))
  {
    var a, n := Stripped(s);
    hide IsBreak, IsSpace, StripLeft, StripRight, Strip;
    var r := s[a..][..n];
    forall i | 0 <= i < |r|
      ensures !IsBreak(r[i])
    {
      assert r[i] == s[a + i];
    }
  }

  lemma {:induction false} LineEndsAtBreak(line: string, rest: string)
    requires forall i :: 0 <= i < |line| ==> !IsBreak(line[i])
    ensures LineEnd(line + "\n" + rest) == |line|
  {
    var text := line + "\n" + rest;
    if line != [] {
      LineEndsAtBreak(line[1..], rest);
      assert text[1..] == line[1..] + "\n" + rest;
      assert text[0] == line[0];
    } else {
      assert text[0] == '\n';
    }
  }

  lemma SplitFirstLine(line: string, rest: string)
    requires forall i :: 0 <= i < |line| ==> !IsBreak(line[i])
    ensures SplitLines(line + "\n" + rest) == [line] + SplitLines(rest)
  {
    var text := line + "\n" + rest;
    LineEndsAtBreak(line, rest);
    assert text[|line|] == '\n';
    assert text[|line|..] == "\n" + rest;
    assert text[..|line|] == line && text[|line| + 1..] == rest;
  }

  function LinesOf(settings: seq<Setting>): (lines: seq<string>)
    ensures |lines| == |settings| && forall i :: 0 <= i < |lines| ==> lines[i] == LineOf(settings[i])
  {
    seq(|settings|, i requires 0 <= i < |settings| => LineOf(settings[i]))
  }

  ghost predicate PlainKeys(settings: seq<Setting>) {
    forall i :: 0 <= i < |settings| ==> PlainKey(settings[i].key)
  }

  lemma LineIsUnbroken(s: Setting)
    requires PlainKey(s.key) && Clean(s.value)
    ensures forall i :: 0 <= i < |LineOf(s)| ==> !IsBreak(LineOf(s)[i])
  {
    var line := LineOf(s);
    forall i | 0 <= i < |line|
      ensures !IsBreak(line[i])
    {
      if i < |s.key| {
        assert line[i] == s.key[i];
      } else if i > |s.key| {
        assert line[i] == s.value[i - |s.key| - 1];
      } else {
        assert line[i] == '=';
      }
    }
  }

  lemma {:induction false} SplitJoined(settings: seq<Setting>)
    requires PlainKeys(settings) && AllClean(settings)
    ensures SplitLines(Joined(settings)) == LinesOf(settings)
  {
    hide IsBreak, IsSpace, LineOf, SplitLines, PlainKey, Clean;
    if settings != [] {
      var s, rest := settings[0], settings[1..];
      assert PlainKey(s.key) && Clean(s.value);
      assert PlainKeys(rest) && AllClean(rest);
      SplitJoined(rest);
      LineIsUnbroken(s);
      SplitFirstLine(LineOf(s), Joined(rest));
      assert LinesOf(settings) == [LineOf(s)] + LinesOf(rest);
    } else {
      NothingSplit();
    }
  }

  lemma NothingSplit()
    ensures SplitLines("") == []
  {
  }

  lemma EqualsAfterKey(s: Setting)
    requires PlainKey(s.key)
    ensures var line := LineOf(s);
            && IsSetting(line)
            && line[..IndexOfEquals(line)] == s.key && line[IndexOfEquals(line) + 1..] == s.value
  {
    hide IsSpace;
    var line := LineOf(s);
    assert line[0] == s.key[0];
    FirstEquals(line, |s.key|);
  }

  lemma {:induction false} FirstEquals(line: string, k: nat)
    requires k < |line| && line[k] == '=' && forall j :: 0 <= j < k ==> line[j] != '='
    ensures IndexOfEquals(line) == k
  {
    if k > 0 {
      FirstEquals(line[1..], k - 1);
    }
  }

  lemma LineIsRead(data: map<string, string>, s: Setting)
    requires PlainKey(s.key) && Clean(s.value)
    ensures WithLine(data, LineOf(s)) == data[s.key := s.value]
  {
    hide IsSpace, IsBreak, Strip, IndexOfEquals, LineOf, IsSetting;
    EqualsAfterKey(s);
    StripClean(s.key);
    StripClean(s.value);
  }

  lemma {:induction false} LinesAreRead(settings: seq<Setting>)
    requires PlainKeys(settings) && AllClean(settings)
    ensures ReadLines(LinesOf(settings)) == AsMap(settings)
  {
    if settings != [] {
      var n := |settings| - 1;
      var front := settings[..n];
      assert PlainKeys(front) && AllClean(front);
      LinesAreRead(front);
      assert LinesOf(settings)[..n] == LinesOf(front);
      assert PlainKey(settings[n].key) && Clean(settings[n].value);
      LineIsRead(AsMap(front), settings[n]);
    }
  }

  predicate IsKeyChar(c: char) {
    'A' <= c <= 'Z' || c == '_'
  }

  predicate AllKeyChars(key: string) {
    key != [] && forall i :: 0 <= i < |key| ==> IsKeyChar(key[i])
  }

  lemma KeyCharsArePlain(key: string)
    requires AllKeyChars(key)
    ensures PlainKey(key)
  {
    forall i | 0 <= i < |key|
      ensures !IsSpace(key[i]) && key[i] != '=' && key[i] != '#'
    {
      assert IsKeyChar(key[i]);
    }
  }

  lemma InstallerKeysArePlain()
    ensures PlainKey(TOKEN) && PlainKey(API_BASE_URL) && PlainKey(OWNER_ID) && PlainKey(WEBHOOK_BASE_URL)
            && PlainKey(WEBHOOK_SECRET)
  {
    hide IsSpace, PlainKey;
    KeyCharsArePlain(TOKEN);
    KeyCharsArePlain(API_BASE_URL);
    KeyCharsArePlain(OWNER_ID);
    KeyCharsArePlain(WEBHOOK_BASE_URL);
    KeyCharsArePlain(WEBHOOK_SECRET);
  }

  lemma SettingsAreKeyed(x: Answers)
    ensures PlainKeys(Settings(x))
  {
    hide PlainKey;
    InstallerKeysArePlain();
  }

  // ---- What a file says ----

  /** The line is no comment, and around its first '=' stand this key and this value, stripped. */
  ghost predicate Assigns(line: string, key: string, value: string) {
    exists i :: 0 <= i < |line| && line[i] == '=' && '=' !in line[..i] && line[0] != '#'
                && Strip(line[..i]) == key && Strip(line[i + 1..]) == value
  }

  lemma FirstEqualsIs(line: string, i: nat)
    requires i < |line| && line[i] == '=' && '=' !in line[..i]
    ensures IndexOfEquals(line) == i
  {
    forall j | 0 <= j < i
      ensures line[j] != '='
    {
      assert line[j] == line[..i][j];
    }
    FirstEquals(line, i);
  }

  lemma AssignsIff(line: string, key: string, value: string)
    ensures Assigns(line, key, value)
            <==> IsSetting(line) && key == Strip(line[..IndexOfEquals(line)])
                 && value == Strip(line[IndexOfEquals(line) + 1..])
  {
    hide Strip, IndexOfEquals;
    if Assigns(line, key, value) {
      var i :| 0 <= i < |line| && line[i] == '=' && '=' !in line[..i] && line[0] != '#'
               && Strip(line[..i]) == key && Strip(line[i + 1..]) == value;
      FirstEqualsIs(line, i);
    }
  }

  /** Line `n` is the last one that says something about the key, and this is what it says. */
  ghost predicate Decides(lines: seq<string>, n: nat, key: string, value: string) {
    n < |lines| && Assigns(lines[n], key, value)
    && forall m, v :: n < m < |lines| ==> !Assigns(lines[m], key, v)
  }

  lemma DecidesOneMore(lines: seq<string>, key: string, value: string)
    requires lines != []
    ensures var n := |lines| - 1;
            (exists i: nat :: Decides(lines, i, key, value))
            <==> Assigns(lines[n], key, value)
                 || ((forall v :: !Assigns(lines[n], key, v)) && exists i: nat :: Decides(lines[..n], i, key, value))
  {
    hide Assigns;
    var n := |lines| - 1;
    if i: nat :| Decides(lines, i, key, value) {
      assert i < n ==> Decides(lines[..n], i, key, value);
    }
    if Assigns(lines[n], key, value) {
      assert Decides(lines, n, key, value);
    }
    if (forall v :: !Assigns(lines[n], key, v)) && exists i: nat :: Decides(lines[..n], i, key, value) {
      var i: nat :| Decides(lines[..n], i, key, value);
      assert Decides(lines, i, key, value);
    }
  }

  lemma {:induction false} LastLineDecides(lines: seq<string>, key: string, value: string)
    ensures key in ReadLines(lines) && ReadLines(lines)[key] == value
            <==> exists i: nat :: Decides(lines, i, key, value)
  {
    hide Strip, IndexOfEquals, Assigns, Decides;
    if lines != [] {
      var n := |lines| - 1;
      var line := lines[n];
      LastLineDecides(lines[..n], key, value);
      DecidesOneMore(lines, key, value);
      forall v
        ensures Assigns(line, key, v) <==> IsSetting(line) && key == Strip(line[..IndexOfEquals(line)])
                                           && v == Strip(line[IndexOfEquals(line) + 1..])
      {
        AssignsIff(line, key, v);
      }
      assert IsSetting(line) && key == Strip(line[..IndexOfEquals(line)]) ==>
          Assigns(line, key, Strip(line[IndexOfEquals(line) + 1..]));
    } else {
      NothingDecides(key, value);
    }
  }

  lemma NothingDecides(key: string, value: string)
    ensures forall i: nat :: !Decides([], i, key, value)
  {
  }

  /** A key has a value if and only if the last line of the file that says something about the key says so. */
  lemma ParsedIff(text: string, key: string, value: string)
    ensures key in Parsed(Some(text)) && Parsed(Some(text))[key] == value
            <==> exists i: nat :: Decides(SplitLines(text), i, key, value)
  {
    hide SplitLines, Decides, ReadLines;
    assert Parsed(Some(text)) == ReadLines(SplitLines(text));
    LastLineDecides(SplitLines(text), key, value);
  }

  lemma {:induction false} StrippedLeft(s: string)
    ensures forall i :: 0 <= i < |s| - |StripLeft(s)| ==> IsSpace(s[i])
  {
    hide IsSpace;
    if s != [] && IsSpace(s[0]) {
      StrippedLeft(s[1..]);
      forall i | 0 <= i < |s| - |StripLeft(s)|
        ensures IsSpace(s[i])
      {
        assert i > 0 ==> s[i] == s[1..][i - 1];
      }
    }
  }

  lemma {:induction false} StrippedRight(s: string)
    ensures forall i :: |StripRight(s)| <= i < |s| ==> IsSpace(s[i])
  {
    hide IsSpace;
    if s != [] && IsSpace(s[|s| - 1]) {
      StrippedRight(s[..|s| - 1]);
      forall i | |StripRight(s)| <= i < |s|
        ensures IsSpace(s[i])
      {
        assert i < |s| - 1 ==> s[i] == s[..|s| - 1][i];
      }
    }
  }

  /** The text from `a` to `b`: all around it is white space, and its own ends are not. */
  ghost predicate IsCore(s: string, a: nat, b: nat) {
    && a <= b <= |s| && (forall i :: 0 <= i < a || b <= i < |s| ==> IsSpace(s[i]))
    && (a < b ==> !IsSpace(s[a]) && !IsSpace(s[b - 1]))
  }

  lemma LeftCore(s: string, a: nat, n: nat)
    requires a <= |s| && n <= |s| - a
    requires forall i :: 0 <= i < a ==> IsSpace(s[i])
    requires forall i :: n <= i < |s| - a ==> IsSpace(s[a..][i])
    requires n > 0 ==> !IsSpace(s[a..][0]) && !IsSpace(s[a..][n - 1])
    ensures IsCore(s, a, a + n)
  {
    hide IsSpace;
    forall i | a + n <= i < |s|
      ensures IsSpace(s[i])
    {
      assert s[i] == s[a..][i - a];
    }
  }

  lemma Stripped(s: string) returns (a: nat, n: nat)
    ensures a <= |s| && n <= |s| - a && Strip(s) == s[a..][..n]
    ensures forall i :: 0 <= i < a ==> IsSpace(s[i])
    ensures forall i :: n <= i < |s| - a ==> IsSpace(s[a..][i])
    ensures n > 0 ==> !IsSpace(s[a..][0]) && !IsSpace(s[a..][n - 1])
  {
    hide IsSpace, StripLeft, StripRight;
    var l := StripLeft(s);
    StrippedLeft(s);
    StrippedRight(l);
    a, n := |s| - |l|, |StripRight(l)|;
    assert s[a..] == l && Strip(s) == l[..n];
    assert n > 0 ==> StripRight(l)[n - 1] == l[n - 1];
  }

  /** Stripping takes away all white space around a text, and nothing else. */
  lemma StripIs(s: string)
    ensures exists a: nat, b: nat :: IsCore(s, a, b) && Strip(s) == s[a..b]
  {
    hide IsSpace, Strip, IsCore;
    var a, n := Stripped(s);
    LeftCore(s, a, n);
    SliceOfSlice(s, a, n);
    assert IsCore(s, a, a + n);
  }

  lemma SliceOfSlice(s: string, a: nat, n: nat)
    requires a <= |s| && n <= |s| - a
    ensures s[a..][..n] == s[a..a + n]
  {
  }

  /** A line break: one of the breaking characters, or a carriage return and a line feed together. */
  ghost predicate IsLineBreak(sep: string, rest: string) {
    || sep == "\r\n"
    || (|sep| == 1 && IsBreak(sep[0]) && !(sep == "\r" && rest != "" && rest[0] == '\n'))
  }

  lemma {:induction false} LineEndsAt(line: string, sep: string, rest: string)
    requires (forall i :: 0 <= i < |line| ==> !IsBreak(line[i])) && (sep == "" ==> rest == "") && (sep != "" ==> IsBreak(sep[0]))
    ensures LineEnd(line + sep + rest) == |line|
  {
    hide IsBreak;
    var text := line + sep + rest;
    if line != [] {
      LineEndsAt(line[1..], sep, rest);
      assert text[1..] == line[1..] + sep + rest;
      assert text[0] == line[0];
    } else {
      assert sep != "" ==> text[0] == sep[0];
    }
  }

  /** How a text splits: at each line break, and a last line without one is a line too. */
  lemma LinesAreSplit(line: string, sep: string, rest: string)
    requires forall i :: 0 <= i < |line| ==> !IsBreak(line[i])
    ensures IsLineBreak(sep, rest) ==> SplitLines(line + sep + rest) == [line] + SplitLines(rest)
    ensures line != "" ==> SplitLines(line) == [line]
    ensures SplitLines("") == []
  {
    LineEndsAt(line, "", "");
    assert line + "" + "" == line;
    if IsLineBreak(sep, rest) {
      FirstLineIsSplit(line, sep, rest);
    }
  }

  lemma FirstLineIsSplit(line: string, sep: string, rest: string)
    requires (forall i :: 0 <= i < |line| ==> !IsBreak(line[i])) && IsLineBreak(sep, rest)
    ensures SplitLines(line + sep + rest) == [line] + SplitLines(rest)
  {
    var text := line + sep + rest;
    LineEndsAt(line, sep, rest);
    assert text[|line|..] == sep + rest;
    BreakIs(sep, rest);
    hide IsBreak, BreakLength, IsLineBreak;
    assert text[..|line|] == line && text[|line| + |sep|..] == rest;
  }

  lemma BreakIs(sep: string, rest: string)
    requires IsLineBreak(sep, rest)
    ensures BreakLength(sep + rest) == |sep|
  {
  }

  // ---- Whatever is read is clean ----

  ghost predicate Broken(line: string) {
    exists i :: 0 <= i < |line| && IsBreak(line[i])
  }

  lemma {:induction false} LinesHaveNoBreaks(text: string)
    ensures forall line :: line in SplitLines(text) ==> !Broken(line)
    decreases |text|
  {
    hide IsBreak;
    if text != [] {
      var e := LineEnd(text);
      assert !Broken(text[..e]);
      if e < |text| {
        LinesHaveNoBreaks(text[e + BreakLength(text[e..])..]);
      } else {
        assert text[..e] == text;
      }
    }
  }

  /** The value part of an unbroken line is clean once stripped. */
  lemma ValueIsClean(line: string, k: nat)
    requires k <= |line| && !Broken(line)
    ensures Clean(Strip(line[k..]))
  {
    hide IsBreak, IsSpace, Strip, Clean;
    var rest := line[k..];
    forall i | 0 <= i < |rest|
      ensures !IsBreak(rest[i])
    {
      assert rest[i] == line[k + i];
    }
    StripIsClean(rest);
  }

  lemma {:induction false} ReadValuesAreClean(lines: seq<string>, key: string)
    requires forall line :: line in lines ==> !Broken(line)
    requires key in ReadLines(lines)
    ensures Clean(ReadLines(lines)[key])
  {
    hide Broken, Clean, Strip, IndexOfEquals, IsSetting;
    var n := |lines| - 1;
    var line := lines[n];
    assert line in lines;
    if IsSetting(line) && key == Strip(line[..IndexOfEquals(line)]) {
      ValueIsClean(line, IndexOfEquals(line) + 1);
    } else {
      ReadValuesAreClean(lines[..n], key);
    }
  }

  lemma ParsedIsClean(text: string, key: string)
    requires key in Parsed(Some(text))
    ensures Clean(Parsed(Some(text))[key])
  {
    LinesHaveNoBreaks(text);
    ReadValuesAreClean(SplitLines(text), key);
  }

  ghost predicate DistinctKeys(settings: seq<Setting>) {
    forall i, j :: 0 <= i < j < |settings| ==> settings[i].key != settings[j].key
  }

  lemma {:induction false} AsMapHas(settings: seq<Setting>, i: nat)
    requires i < |settings| && DistinctKeys(settings)
    ensures settings[i].key in AsMap(settings) && AsMap(settings)[settings[i].key] == settings[i].value
  {
    if i < |settings| - 1 {
      AsMapHas(settings[..|settings| - 1], i);
    }
  }

  lemma KeysDiffer()
    ensures |TOKEN| == 16 && |API_BASE_URL| == 19 && |OWNER_ID| == 15 && |WEBHOOK_BASE_URL| == 23
            && |WEBHOOK_SECRET| == 21
  {
  }

  lemma SettingsAreDistinct(x: Answers)
    ensures DistinctKeys(Settings(x))
  {
    KeysDiffer();
  }

  /**
   The round trip: the parser gives back exactly the settings that were written if and only if none of
   their values has a line break inside or white space around it. '=' and '#' inside a value do no harm.
   */
  lemma RoundTripIffClean(x: Answers)
    ensures Parsed(Some(Joined(Settings(x)))) == AsMap(Settings(x)) <==> AllClean(Settings(x))
  {
    var settings := Settings(x);
    SettingsAreKeyed(x);
    if AllClean(settings) {
      SplitJoined(settings);
      LinesAreRead(settings);
    }
    if Parsed(Some(Joined(settings))) == AsMap(settings) {
      SettingsAreDistinct(x);
      forall i | 0 <= i < |settings|
        ensures Clean(settings[i].value)
      {
        AsMapHas(settings, i);
        ParsedIsClean(Joined(settings), settings[i].key);
      }
    }
  }

  lemma {:induction false} AsMapLacks(settings: seq<Setting>, key: string)
    requires forall i :: 0 <= i < |settings| ==> settings[i].key != key
    ensures key !in AsMap(settings)
  {
    if settings != [] {
      AsMapLacks(settings[..|settings| - 1], key);
    }
  }

  /** A key of the map is what the settings say about it, or is missing when they say nothing. */
  lemma LookedUp(settings: seq<Setting>, key: string, value: string)
    requires DistinctKeys(settings)
    requires Setting(key, value) in settings || forall i :: 0 <= i < |settings| ==> settings[i].key != key
    ensures key in AsMap(settings) <==> exists i :: 0 <= i < |settings| && settings[i].key == key
    ensures Setting(key, value) in settings ==> AsMap(settings)[key] == value
  {
    if Setting(key, value) in settings {
      var i :| 0 <= i < |settings| && settings[i] == Setting(key, value);
      AsMapHas(settings, i);
    } else {
      AsMapLacks(settings, key);
    }
  }

  /** What the settings say about each key. */
  lemma SettingsSay(x: Answers)
    ensures var settings := Settings(x);
            && Setting(TOKEN, x.token) in settings && Setting(API_BASE_URL, x.apiBaseUrl) in settings
            && SaysOrLacks(settings, OWNER_ID, if x.ownerId.Some? then x.ownerId.value else "")
            && SaysOrLacks(settings, WEBHOOK_BASE_URL, x.webhookBaseUrl)
            && SaysOrLacks(settings, WEBHOOK_SECRET, x.webhookSecret)
  {
    var settings := Settings(x);
    KeysDiffer();
    assert settings[0] == Setting(TOKEN, x.token) && settings[1] == Setting(API_BASE_URL, x.apiBaseUrl);
  }

  /** An optional setting is there with its value, or its value is empty and the key is not there. */
  ghost predicate SaysOrLacks(settings: seq<Setting>, key: string, value: string) {
    || (value != "" && Setting(key, value) in settings)
    || (value == "" && forall i :: 0 <= i < |settings| ==> settings[i].key != key)
  }

  lemma OptionalComesBack(settings: seq<Setting>, key: string, value: string)
    requires DistinctKeys(settings) && SaysOrLacks(settings, key, value)
    ensures var data := AsMap(settings); (key in data <==> value != "") && (key in data ==> data[key] == value)
  {
    hide AsMap, DistinctKeys;
    LookedUp(settings, key, value);
  }

  lemma AnswersComeBack(x: Answers)
    ensures Settings(AnswersOf(AsMap(Settings(x)))) == Settings(x)
  {
    var settings := Settings(x);
    SettingsAreDistinct(x);
    SettingsSay(x);
    hide AsMap, DistinctKeys, SaysOrLacks;
    LookedUp(settings, TOKEN, x.token);
    LookedUp(settings, API_BASE_URL, x.apiBaseUrl);
    OptionalComesBack(settings, OWNER_ID, if x.ownerId.Some? then x.ownerId.value else "");
    OptionalComesBack(settings, WEBHOOK_BASE_URL, x.webhookBaseUrl);
    OptionalComesBack(settings, WEBHOOK_SECRET, x.webhookSecret);
  }

  /** Printing what was parsed gives the same file again. */
  lemma PrintedAgain(x: Answers)
    requires AllClean(Settings(x))
    ensures Joined(Settings(AnswersOf(Parsed(Some(Joined(Settings(x))))))) == Joined(Settings(x))
  {
    RoundTripIffClean(x);
    AnswersComeBack(x);
  }
}
