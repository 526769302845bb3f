/** The configuration steps of the setup script (setup.py) and the start-up
    check of the all-in-one launcher (all_in_one.py): creating `.env`,
    deciding whether it holds a usable OpenAI key, writing a key into it, and
    the yes/no prompts. The file system, the environment and the keyboard are
    inputs: a file is its text or None when it does not exist, an environment
    variable is its value or None, an answer is the line the user typed. */
module Setup {
  import opened Options
  import opened Seqs
  import opened PyText

  const KeyName: string := Chars("OPENAI_API_KEY")
  /** What a key line starts with. */
  const KeyPrefix: string := KeyName + Chars("=")
  /** The value the generated `.env` carries until the user sets a key. */
  const Placeholder: string := Chars("din_openai_api_nyckel_här")

  // ---------------------------------------------------------------------
  // Reading the key

  /** `line.strip().split('=', 1)[1]`: None where Python would raise
      IndexError because the stripped line has no `=`; otherwise everything
      after the first `=` of the stripped line, later `=` signs included. */
  function KeyOf(line: string): (r: Option<string>)
    ensures r.Some? <==> '=' in Strip(line)
    ensures r.Some? ==>
      var s := Strip(line);
      var k := |s| - |r.value| - 1;
      0 <= k && s[k] == '=' && '=' !in s[..k] && s[k + 1..] == r.value
  {
    AfterFirst(Strip(line), '=')
  }

  /** A line that `check_api_key` accepts: it starts with the key prefix (on
      the raw line) and the value after the first `=` of the stripped line is
      neither empty nor the placeholder. */
  predicate UsableKeyLine(line: string) {
    && StartsWith(line, KeyPrefix)
    && KeyOf(line).Some?
    && KeyOf(line).value != []
    && KeyOf(line).value != Placeholder
  }

  /** Some line of the text holds a usable key. */
  predicate HasUsableKey(text: string) {
    exists i :: 0 <= i < |Lines(text)| && UsableKeyLine(Lines(text)[i])
  }

  /** `check_api_key`: `env` is the text of `.env`, None when it does not
      exist. */
  method CheckApiKey(env: Option<string>) returns (found: bool)
    ensures found <==> env.Some? && HasUsableKey(env.value)
  {
    if env.None? {
      return false;
    }
    found := FindKeyLine(Lines(env.value));
  }

  /** The loop of `check_api_key`: the lines are read in order and the first
      usable key line ends the search. */
  method FindKeyLine(lines: seq<string>) returns (found: bool)
    ensures found <==> exists i :: 0 <= i < |lines| && UsableKeyLine(lines[i])
  {
    var i := 0;
    while i < |lines|
      invariant 0 <= i <= |lines|
      invariant forall j :: 0 <= j < i ==> !UsableKeyLine(lines[j])
    {
      var line := lines[i];
      if StartsWith(line, KeyPrefix) {
        var key := KeyOf(line);
        if key.Some? && key.value != [] && key.value != Placeholder {
          return true;
        }
      }
      i := i + 1;
    }
    return false;
  }

  lemma KeyNameFacts()
    ensures |KeyName| == 14 && KeyName[0] == 'O'
    ensures '=' !in KeyName && '\n' !in KeyName
  {
  }

  lemma KeyPrefixFacts()
    ensures |KeyPrefix| == 15 && KeyPrefix[0] == 'O' && KeyPrefix[14] == '='
    ensures KeyPrefix[..14] == KeyName
    ensures '\n' !in KeyPrefix
  {
    KeyNameFacts();
  }

  /** `rstrip` drops a final newline and nothing else of what precedes it. */
  lemma RStripNewline(s: string)
    ensures RStrip(s + Newline) == RStrip(s)
  {
    assert (s + Newline)[..|s|] == s;
  }

  /** `rstrip` never reaches into the key prefix, which ends in `=`. */
  lemma RStripPrefixed(rest: string)
    ensures RStrip(KeyPrefix + rest) == KeyPrefix + RStrip(rest)
  {
    KeyPrefixFacts();
    assert !IsSpace(KeyPrefix[|KeyPrefix| - 1]);
    RStripAppend(KeyPrefix, rest);
    if RStrip(rest) == [] {
      assert KeyPrefix + RStrip(rest) == KeyPrefix;
    }
  }

  /** The first `=` after the key prefix's start is the prefix's own. */
  lemma AfterFirstPrefixed(value: string)
    ensures AfterFirst(KeyPrefix + value, '=') == Some(value)
  {
    KeyPrefixFacts();
    KeyNameFacts();
    var s := KeyPrefix + value;
    assert s == KeyName + (s[14..]) by {
      assert s[..14] == KeyName;
    }
    assert s[14] == '=';
    IndexOfPrefix(KeyName, '=', s[14..]);
    assert s[15..] == value;
  }

  /** A line that starts with the key prefix always has an `=`, so the key
      read from it exists: it is the rest of the line without trailing
      whitespace, `=` signs included, because only the first `=` splits. */
  lemma KeyOfPrefixed(rest: string)
    ensures KeyOf(KeyPrefix + rest) == Some(RStrip(rest))
  {
    var r := KeyPrefix + RStrip(rest);
    RStripPrefixed(rest);
    assert LStrip(r) == r by {
      KeyPrefixFacts();
      assert r[0] == 'O' && !IsSpace('O');
    }
    AfterFirstPrefixed(RStrip(rest));
  }

  /** A key line is accepted exactly when its value, without trailing
      whitespace, is neither empty nor the placeholder. */
  lemma UsableKeyLineIff(rest: string)
    ensures UsableKeyLine(KeyPrefix + rest) <==> RStrip(rest) != [] && RStrip(rest) != Placeholder
  {
    KeyOfPrefixed(rest);
    StartsWithPrefixed(rest);
  }

  lemma StartsWithPrefixed(rest: string)
    ensures StartsWith(KeyPrefix + rest, KeyPrefix)
  {
    assert (KeyPrefix + rest)[..|KeyPrefix|] == KeyPrefix;
  }

  // ---------------------------------------------------------------------
  // Creating `.env`

  const Header: string := Chars("# API-nycklar\n")
  /** The second write: the placeholder key line and an empty line. */
  const KeyWrite: string := KeyPrefix + Placeholder + Chars("\n\n")
  const ServerHeader: string := Chars("# Server-konfiguration\n")
  const PortLine: string := Chars("PORT=8000\n")
  /** A newline on its own: the empty line of the default text and the end of
      every line written. */
  const Newline: string := Chars("\n")

  /** The text `create_env_file` writes when neither `.env` nor `env.example`
      exists: its four writes, in order. */
  function DefaultEnv(): string {
    Header + KeyWrite + ServerHeader + PortLine
  }

  /** `create_env_file`: the text of `.env` afterwards. An existing `.env` is
      kept, otherwise `env.example` is copied, otherwise the default text is
      written. */
  function CreateEnvFile(env: Option<string>, example: Option<string>): (r: string)
    ensures env.Some? ==> r == env.value
    ensures env.None? && example.Some? ==> r == example.value
    ensures env.None? && example.None? ==> r == Header + KeyWrite + ServerHeader + PortLine
  {
    match env
    case Some(text) => text
    case None => example.GetOr(DefaultEnv())
  }

  /** The placeholder key line of the default text. */
  function PlaceholderLine(): string {
    KeyLine(Placeholder)
  }

  lemma HeaderComplete()
    ensures IsCompleteLine(Header) && |Header| == 14
  {
  }

  lemma ServerHeaderComplete()
    ensures IsCompleteLine(ServerHeader) && ServerHeader[0] == '#'
  {
  }

  lemma PortLineComplete()
    ensures IsCompleteLine(PortLine) && |PortLine| == 10
  {
  }

  lemma PlaceholderFacts()
    ensures |Placeholder| == 25 && Placeholder[24] == 'r'
    ensures '\n' !in Placeholder
  {
  }

  lemma PlaceholderLineComplete()
    ensures IsCompleteLine(PlaceholderLine())
  {
    PlaceholderFacts();
    KeyLineComplete(Placeholder);
  }

  lemma FlattenFive(a: string, b: string, c: string, d: string, e: string)
    ensures Flatten([a, b, c, d, e]) == a + b + c + d + e
  {
    assert Flatten([e]) == e by {
      assert [e][1..] == [];
    }
    assert Flatten([d, e]) == d + e by {
      assert [d, e][1..] == [e];
    }
    assert Flatten([c, d, e]) == c + (d + e) by {
      assert [c, d, e][1..] == [d, e];
    }
    assert Flatten([b, c, d, e]) == b + (c + (d + e)) by {
      assert [b, c, d, e][1..] == [c, d, e];
    }
    assert Flatten([a, b, c, d, e]) == a + (b + (c + (d + e))) by {
      assert [a, b, c, d, e][1..] == [b, c, d, e];
    }
  }

  /** Five complete lines in a row read back as themselves. */
  lemma LinesOfFive(a: string, b: string, c: string, d: string, e: string)
    requires IsCompleteLine(a) && IsCompleteLine(b) && IsCompleteLine(c)
    requires IsCompleteLine(d) && IsCompleteLine(e)
    ensures Lines(a + b + c + d + e) == [a, b, c, d, e]
  {
    var ls := [a, b, c, d, e];
    LinesAfter(ls, []);
    FlattenFive(a, b, c, d, e);
    assert a + b + c + d + e + [] == a + b + c + d + e;
    assert ls + [] == ls;
  }

  /** The default text reads as five lines: the header, the placeholder key
      line, an empty line, the server header and the port line. */
  lemma DefaultEnvLines()
    ensures Lines(DefaultEnv()) == [Header, PlaceholderLine(), Newline, ServerHeader, PortLine]
  {
    HeaderComplete();
    PlaceholderLineComplete();
    ServerHeaderComplete();
    PortLineComplete();
    assert IsCompleteLine(Newline);
    assert KeyWrite == PlaceholderLine() + Newline;
    assert DefaultEnv() == Header + PlaceholderLine() + Newline + ServerHeader + PortLine;
    LinesOfFive(Header, PlaceholderLine(), Newline, ServerHeader, PortLine);
  }

  /** The placeholder line is a key line the check rejects. */
  lemma PlaceholderLineRejected()
    ensures StartsWith(PlaceholderLine(), KeyPrefix)
    ensures !UsableKeyLine(PlaceholderLine())
  {
    KeyLineUsable(Placeholder);
    assert RStrip(Placeholder) == Placeholder by {
      PlaceholderFacts();
    }
  }

  /** The other lines of the default text are not key lines. */
  lemma OtherDefaultLinesRejected()
    ensures !StartsWith(Header, KeyPrefix)
    ensures !StartsWith(Newline, KeyPrefix)
    ensures !StartsWith(ServerHeader, KeyPrefix)
    ensures !StartsWith(PortLine, KeyPrefix)
  {
    KeyNameFacts();
    HeaderComplete();
    ServerHeaderComplete();
    PortLineComplete();
    KeyPrefixFacts();
    assert ServerHeader[0] != KeyPrefix[0];
  }

  /** None of the five default lines holds a usable key. */
  lemma DefaultLinesRejected(ls: seq<string>)
    requires ls == [Header, PlaceholderLine(), Newline, ServerHeader, PortLine]
    ensures forall i :: 0 <= i < |ls| ==> !UsableKeyLine(ls[i])
  {
    forall i | 0 <= i < |ls|
      ensures !UsableKeyLine(ls[i])
    {
      if i == 1 {
        PlaceholderLineRejected();
      } else {
        OtherDefaultLinesRejected();
      }
    }
  }

  /** The default text holds no usable key: its only key line carries the
      placeholder. */
  lemma DefaultEnvHasNoKey()
    ensures !HasUsableKey(DefaultEnv())
  {
    DefaultEnvLines();
    DefaultLinesRejected(Lines(DefaultEnv()));
  }

  /** The default text has a key line, so the rewrite has a line to
      replace. */
  lemma DefaultEnvHasKeyLine()
    ensures HasKeyLine(DefaultEnv())
  {
    DefaultEnvLines();
    SecondLineIsKeyLine(DefaultEnv());
  }

  lemma SecondLineIsKeyLine(text: string)
    requires Lines(text) == [Header, PlaceholderLine(), Newline, ServerHeader, PortLine]
    ensures HasKeyLine(text)
  {
    PlaceholderLineRejected();
    KeyLineAt(text, Lines(text), 1);
  }

  /** A key line anywhere in what the text reads as is a key line of the
      text. */
  lemma KeyLineAt(text: string, ls: seq<string>, i: nat)
    requires Lines(text) == ls && i < |ls| && StartsWith(ls[i], KeyPrefix)
    ensures HasKeyLine(text)
  {
  }

  /** A usable key line anywhere in what the text reads as makes the check
      succeed. */
  lemma UsableKeyAt(text: string, ls: seq<string>, i: nat)
    requires Lines(text) == ls && i < |ls| && UsableKeyLine(ls[i])
    ensures HasUsableKey(text)
  {
  }

  /** After `create_env_file` the key check succeeds exactly when an existing
      `.env` or the copied example already held a usable key: a file written
      from scratch never does. */
  lemma CreatedEnvNeedsKey(env: Option<string>, example: Option<string>)
    ensures HasUsableKey(CreateEnvFile(env, example)) <==>
      (env.Some? && HasUsableKey(env.value)) || (env.None? && example.Some? && HasUsableKey(example.value))
  {
    if env.None? && example.None? {
      DefaultEnvHasNoKey();
    }
  }

  // ---------------------------------------------------------------------
  // Writing a key

  /** The line the rewrite puts in place of a key line. */
  function KeyLine(key: string): string {
    KeyPrefix + key + Newline
  }

  /** The loop of `main` over `readlines()`: every line that starts with the
      key prefix is replaced by a key line for `key`, every other line is
      written back unchanged. */
  function RewriteKey(lines: seq<string>, key: string): (r: seq<string>)
    ensures |r| == |lines|
    ensures forall i :: 0 <= i < |lines| && !StartsWith(lines[i], KeyPrefix) ==> r[i] == lines[i]
    ensures forall i :: 0 <= i < |lines| && StartsWith(lines[i], KeyPrefix) ==> r[i] == KeyLine(key)
  {
    seq(|lines|, i requires 0 <= i < |lines| =>
      if StartsWith(lines[i], KeyPrefix) then KeyLine(key) else lines[i])
  }

  /** The text of `.env` after the rewrite, as the script writes it. */
  function ConfigureKey(text: string, key: string): string {
    Flatten(RewriteKey(Lines(text), key))
  }

  /** Some line of the text starts with the key prefix. */
  predicate HasKeyLine(text: string) {
    exists i :: 0 <= i < |Lines(text)| && StartsWith(Lines(text)[i], KeyPrefix)
  }

  lemma KeyLineComplete(key: string)
    requires '\n' !in key
    ensures IsCompleteLine(KeyLine(key))
  {
    KeyPrefixFacts();
    var l := KeyLine(key);
    assert l[..|l| - 1] == KeyPrefix + key;
  }

  /** A written key line is a key line; the check accepts it exactly when
      the key, without trailing whitespace, is neither empty nor the
      placeholder. */
  lemma KeyLineUsable(key: string)
    ensures StartsWith(KeyLine(key), KeyPrefix)
    ensures UsableKeyLine(KeyLine(key)) <==> RStrip(key) != [] && RStrip(key) != Placeholder
  {
    assert KeyLine(key) == KeyPrefix + (key + Newline);
    UsableKeyLineIff(key + Newline);
    RStripNewline(key);
  }

  /** A key without a newline leaves the file's line structure intact:
      reading the rewritten file gives back the rewritten lines, one for each
      line of the original. */
  lemma ConfigureKeyLines(text: string, key: string)
    requires '\n' !in key
    ensures Lines(ConfigureKey(text, key)) == RewriteKey(Lines(text), key)
  {
    var ls := Lines(text);
    var r := RewriteKey(ls, key);
    LinesWellFormed(text);
    KeyLineComplete(key);
    assert LineSeq(r) by {
      forall k, i | 0 <= k < |r| && 0 <= i < |r[k]| - 1
        ensures r[k][i] != '\n'
      {
        if StartsWith(ls[k], KeyPrefix) {
          assert r[k][i] == r[k][..|r[k]| - 1][i];
        }
      }
    }
    LinesFlatten(r);
  }

  /** Writing a key into a file that has a key line makes the check succeed
      exactly when the typed key, without trailing whitespace, is neither
      empty nor the placeholder. */
  lemma ConfigureKeyEnables(text: string, key: string)
    requires '\n' !in key
    requires HasKeyLine(text)
    ensures HasUsableKey(ConfigureKey(text, key)) <==> RStrip(key) != [] && RStrip(key) != Placeholder
  {
    var ls := Lines(text);
    var r := RewriteKey(ls, key);
    ConfigureKeyLines(text, key);
    KeyLineUsable(key);
    var i :| 0 <= i < |ls| && StartsWith(ls[i], KeyPrefix);
    assert r[i] == KeyLine(key);
  }

  /** Without a key line the rewrite changes nothing, so the typed key is
      lost and the check still fails. */
  lemma ConfigureKeyWithoutKeyLine(text: string, key: string)
    requires !HasKeyLine(text)
    ensures ConfigureKey(text, key) == text
    ensures !HasUsableKey(ConfigureKey(text, key))
  {
    var ls := Lines(text);
    assert RewriteKey(ls, key) == ls;
    FlattenLines(text);
  }

  /** A concrete file without a key line, and a valid key that the rewrite
      drops: copied from an example holding only the port line, the file
      comes out of the script unchanged after a yes, still without a usable
      key, and the script goes on. */
  lemma KeyDroppedExample()
    ensures var text := PortLine;
      !HasUsableKey(ConfigureKey(text, "sk-abc")) && !HasUsableKey(text)
    ensures SetupKey(None, Some(PortLine), "j", "sk-abc") == Some(PortLine)
  {
    PortLineComplete();
    CompleteLineCons(PortLine, []);
    assert PortLine + [] == PortLine;
    assert Lines(PortLine) == [PortLine];
    assert !HasKeyLine(PortLine);
    ConfigureKeyWithoutKeyLine(PortLine, "sk-abc");
    assert Lower("j") == "j";
  }

  /** The text with a final newline added unless it is empty or already ends
      in one. */
  function Terminated(text: string): (r: string)
    ensures r == [] || r[|r| - 1] == '\n'
    ensures text == [] || text[|text| - 1] == '\n' ==> r == text
    ensures r == text || r == text + Newline
  {
    if text == [] || text[|text| - 1] == '\n' then text else text + Newline
  }

  /** The rewrite as evidently intended: when the file has no key line, one
      is appended after the existing lines. */
  function ConfigureKeyOrAppend(text: string, key: string): string {
    if HasKeyLine(text) then ConfigureKey(text, key) else Terminated(text) + KeyLine(key)
  }

  /** Every line of a text that is empty or ends in a newline is complete. */
  lemma {:induction false} LinesComplete(s: string)
    requires s == [] || s[|s| - 1] == '\n'
    ensures forall k :: 0 <= k < |Lines(s)| ==> IsCompleteLine(Lines(s)[k])
    decreases |s|
  {
    if |s| > 0 {
      assert '\n' in s by { assert s[|s| - 1] == '\n'; }
      IndexOfFound(s, '\n');
      LinesUnfold(s);
      var k := IndexOf(s, '\n');
      var a := s[..k + 1];
      var rest := s[k + 1..];
      FirstLineComplete(s, k);
      if rest != [] {
        assert rest[|rest| - 1] == s[|s| - 1];
      }
      LinesComplete(rest);
    }
  }

  /** The text up to and including its first newline is a complete line. */
  lemma FirstLineComplete(s: string, k: nat)
    requires k == IndexOf(s, '\n') && k < |s|
    ensures IsCompleteLine(s[..k + 1])
  {
    var a := s[..k + 1];
    assert a[..|a| - 1] == s[..k];
    assert forall j :: 0 <= j < k ==> s[..k][j] == s[j];
  }

  /** With the append, writing a valid key always makes the check succeed,
      whether or not the file had a key line. */
  lemma ConfigureKeyOrAppendEnables(text: string, key: string)
    requires '\n' !in key
    requires RStrip(key) != [] && RStrip(key) != Placeholder
    ensures HasUsableKey(ConfigureKeyOrAppend(text, key))
  {
    if HasKeyLine(text) {
      ConfigureKeyEnables(text, key);
    } else {
      var t := Terminated(text);
      KeyLineComplete(key);
      AppendedLine(t, KeyLine(key));
      KeyLineUsable(key);
      var ls := Lines(t) + [KeyLine(key)];
      UsableKeyAt(t + KeyLine(key), ls, |ls| - 1);
    }
  }

  /** A complete line appended to a text that is empty or ends in a newline
      is read as one more line. */
  lemma AppendedLine(t: string, line: string)
    requires t == [] || t[|t| - 1] == '\n'
    requires IsCompleteLine(line)
    ensures Lines(t + line) == Lines(t) + [line]
  {
    var ls := Lines(t);
    assert Lines(Flatten(ls) + line) == ls + Lines(line) by {
      LinesComplete(t);
      LinesAfter(ls, line);
    }
    assert Lines(line) == [line] by {
      CompleteLineCons(line, []);
      assert line + [] == line;
    }
    FlattenLines(t);
  }

  // ---------------------------------------------------------------------
  // The prompts

  /** The answers both scripts take as yes. */
  const YesWords: set<string> := {"j", "ja", "y", "yes"}

  /** `choice.lower() in ('j', 'ja', 'y', 'yes')`. The answer is not
      stripped. */
  predicate IsYes(answer: string) {
    Lower(answer) in YesWords
  }

  /** A yes is one to three characters starting with j or y in either case;
      capitals are accepted, surrounding spaces and an empty answer are not. */
  lemma IsYesShape(answer: string)
    ensures IsYes(answer) ==> 1 <= |answer| <= 3 && (answer[0] in {'j', 'J', 'y', 'Y'})
    ensures IsYes(answer) ==> forall i :: 0 <= i < |answer| ==> !IsSpace(answer[i])
  {
    if IsYes(answer) {
      var w := Lower(answer);
      assert w == "j" || w == "ja" || w == "y" || w == "yes";
      assert LowerChar(answer[0]) == w[0];
      forall i | 0 <= i < |answer|
        ensures !IsSpace(answer[i])
      {
        assert LowerChar(answer[i]) == w[i];
      }
    }
  }

  /** Every yes word, in small or capital letters, is accepted. */
  lemma IsYesAnyCase(w: string)
    requires w in YesWords
    ensures IsYes(w) && IsYes(Upper(w))
  {
    var u := Upper(w);
    assert Lower(w) == w;
    assert Lower(u) == w;
  }

  // ---------------------------------------------------------------------
  // The two entry points

  /** The configuration part of setup.py's `main`, after `create_env_file`:
      None when the user declines to enter a key (the script stops), else the
      text of `.env` afterwards. A file with a usable key is left alone; after
      a yes the typed key is written over the file's key lines. */
  function SetupKey(env: Option<string>, example: Option<string>, answer: string, key: string): (r: Option<string>)
  {
    var text := CreateEnvFile(env, example);
    if HasUsableKey(text) then Some(text)
    else if IsYes(answer) then Some(ConfigureKey(text, key))
    else None
  }

  /** The script stops exactly when there is no usable key and the answer is
      not a yes, and a usable key is never touched. After a yes the file ends
      with a usable key exactly when it had a key line to overwrite and the
      typed key is valid: a file without a key line goes on without one. */
  lemma SetupKeyOutcome(env: Option<string>, example: Option<string>, answer: string, key: string)
    requires '\n' !in key
    ensures var text := CreateEnvFile(env, example);
      var r := SetupKey(env, example, answer, key);
      && (r.None? <==> !HasUsableKey(text) && !IsYes(answer))
      && (HasUsableKey(text) ==> r == Some(text))
      && (!HasUsableKey(text) && IsYes(answer) ==>
            (HasUsableKey(r.value) <==> HasKeyLine(text) && RStrip(key) != [] && RStrip(key) != Placeholder))
  {
    var text := CreateEnvFile(env, example);
    if HasKeyLine(text) {
      ConfigureKeyEnables(text, key);
    } else {
      ConfigureKeyWithoutKeyLine(text, key);
    }
  }

  /** `main` with the corrected rewrite, which appends a key line where the
      file has none. */
  function SetupKeyIntended(env: Option<string>, example: Option<string>, answer: string, key: string): (r: Option<string>)
  {
    var text := CreateEnvFile(env, example);
    if HasUsableKey(text) then Some(text)
    else if IsYes(answer) then Some(ConfigureKeyOrAppend(text, key))
    else None
  }

  /** With the corrected rewrite, the script still stops exactly when there
      is no usable key and no yes, and with a valid typed key every run that
      goes on ends with a key the check accepts. */
  lemma SetupKeyIntendedOutcome(env: Option<string>, example: Option<string>, answer: string, key: string)
    requires '\n' !in key && RStrip(key) != [] && RStrip(key) != Placeholder
    ensures var text := CreateEnvFile(env, example);
      var r := SetupKeyIntended(env, example, answer, key);
      && (r.None? <==> !HasUsableKey(text) && !IsYes(answer))
      && (HasUsableKey(text) ==> r == Some(text))
      && (r.Some? ==> HasUsableKey(r.value))
  {
    ConfigureKeyOrAppendEnables(CreateEnvFile(env, example), key);
  }

  /** Setting up from nothing always asks for the key, and there the script
      as written and the corrected one agree, because the default text has a
      key line. */
  lemma FreshSetupAsks(answer: string, key: string)
    ensures SetupKey(None, None, answer, key).Some? <==> IsYes(answer)
    ensures SetupKey(None, None, answer, key) == SetupKeyIntended(None, None, answer, key)
  {
    DefaultEnvHasNoKey();
    DefaultEnvHasKeyLine();
  }

  /** What the all-in-one launcher leaves behind: the text of `.env` and
      whether it goes on to start the servers. */
  datatype Startup = Startup(envFile: Option<string>, proceeds: bool)

  /** The start-up check of all_in_one.py: `keyVar` is `OPENAI_API_KEY` from
      the environment (after `.env` was loaded), `answer` what the user types
      when asked to continue without a key. */
  function StartUp(keyVar: Option<string>, env: Option<string>, example: Option<string>, answer: string): (r: Startup)
  {
    if keyVar.Some? && keyVar.value != [] then Startup(env, true)
    else
      var envAfter := if example.Some? && env.None? then example else env;
      Startup(envAfter, IsYes(answer))
  }

  /** The launcher never overwrites an existing `.env`; it copies the example
      only when the key is missing, the example exists and `.env` does not. */
  lemma StartUpEnvFile(keyVar: Option<string>, env: Option<string>, example: Option<string>, answer: string)
    ensures env.Some? ==> StartUp(keyVar, env, example, answer).envFile == env
    ensures StartUp(keyVar, env, example, answer).envFile != env <==>
      (keyVar.None? || keyVar.value == []) && env.None? && example.Some?
  {
  }

  /** The launcher goes on exactly when the key is set and non-empty or the
      user answers yes; the answer only matters without a key. */
  lemma StartUpProceeds(keyVar: Option<string>, env: Option<string>, example: Option<string>, answer: string)
    ensures StartUp(keyVar, env, example, answer).proceeds <==>
      (keyVar.Some? && keyVar.value != []) || IsYes(answer)
  {
  }
}
