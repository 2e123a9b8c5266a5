/** The env file (common.py, config.py) and its two readers: the installer's parser and the
    server's (server_runtime.py). */
module EnvText {
  import opened Wrappers
  import opened Text

  datatype EnvError = MalformedLiteral | OtherLiteral

  // ---- Lines ------------------------------------------------------------------------------------

  /** The characters str.splitlines breaks at. */
  predicate IsBreak(c: char) {
    '\n' <= c <= '\r' || '\U{1C}' <= c <= '\U{1E}' || c == '\U{85}' || c == '\U{2028}' || c == '\U{2029}'
  }

  predicate OneLine(text: string) { forall i :: 0 <= i < |text| ==> !IsBreak(text[i]) }

  function FirstBreak(text: string): (i: nat)
    ensures i <= |text| && OneLine(text[..i]) && (i < |text| ==> IsBreak(text[i]))
  {
    if text == "" || IsBreak(text[0]) then 0 else 1 + FirstBreak(text[1..])
  }

  /** str.splitlines */
  function SplitLines(text: string): seq<string>
    decreases |text|
  {
    if text == "" then []
    else
      var i := FirstBreak(text);
      if i == |text| then [text]
      else
        var next := if text[i] == '\r' && i + 1 < |text| && text[i + 1] == '\n' then i + 2 else i + 1;
        [text[..i]] + SplitLines(text[next..])
  }

  /** Lines, each ended by a newline. */
  function Joined(lines: seq<string>): string {
    if lines == [] then "" else lines[0] + "\n" + Joined(lines[1..])
  }

  lemma {:induction false} BreakAfter(line: string, rest: string)
    requires OneLine(line)
    ensures FirstBreak(line + "\n" + rest) == |line|
  {
    var text := line + "\n" + rest;
    assert text[|line|] == '\n';
    if line != "" {
      BreakAfter(line[1..], rest);
      assert text[1..] == line[1..] + "\n" + rest;
      assert text[0] == line[0];
    }
  }

  lemma {:induction false} JoinedSplits(lines: seq<string>)
    requires forall k :: 0 <= k < |lines| ==> OneLine(lines[k])
    ensures SplitLines(Joined(lines)) == lines
  {
    if lines != [] {
      var text := Joined(lines);
      var rest := Joined(lines[1..]);
      BreakAfter(lines[0], rest);
      assert text[|lines[0]|] == '\n';
      assert text[..|lines[0]|] == lines[0] && text[|lines[0]| + 1..] == rest;
      JoinedSplits(lines[1..]);
      hide FirstBreak;
      assert SplitLines(text) == [lines[0]] + SplitLines(rest);
    }
  }

  // ---- Values -----------------------------------------------------------------------------------

  function Escape(value: string): string {
    if value == "" then ""
    else (if value[0] == '\\' || value[0] == '"' then ['\\', value[0]] else [value[0]]) + Escape(value[1..])
  }

  /** shell_env_quote */
  function Quote(value: string): string { "\"" + Escape(value) + "\"" }

  /** The rest of a string literal after its opening quote. */
  function ReadLiteral(rest: string, quote: char): Result<string, EnvError>
    decreases |rest|
  {
    if rest == "" || IsBreak(rest[0]) || rest[0] == '\U{0}' then Failure(MalformedLiteral)
    else if rest[0] == quote then if |rest| == 1 then Success("") else Failure(OtherLiteral)
    else if rest[0] == '\\' then
      if |rest| < 2 then Failure(MalformedLiteral)
      else if rest[1] in "\\\"'" then
        var more :- ReadLiteral(rest[2..], quote);
        Success([rest[1]] + more)
      else Failure(OtherLiteral)
    else
      var more :- ReadLiteral(rest[1..], quote);
      Success([rest[0]] + more)
  }

  /** parse_env_value */
  function ParseValue(raw: string): Result<string, EnvError> {
    var text := Strip(raw);
    if text == "" then Success("")
    else if text[0] in "\"'" then
      if |text| >= 3 && text[1] == text[0] && text[2] == text[0] then Failure(OtherLiteral)
      else ReadLiteral(text[1..], text[0])
    else Success(text)
  }

  /** The server's reading of a value: matching outer quotes are dropped, nothing is unescaped. */
  function ServerValue(raw: string): string {
    var text := Strip(raw);
    if |text| >= 2 && text[0] == text[|text| - 1] && text[0] in "\"'" then text[1..|text| - 1] else text
  }

  predicate Clean(value: string) { OneLine(value) && '\U{0}' !in value }

  lemma {:induction false} LiteralStep(c: char, rest: string, value: string, escaped: bool)
    requires ReadLiteral(rest, '"') == Success(value)
    requires !IsBreak(c) && c != '\U{0}' && (escaped <==> c == '\\' || c == '"')
    ensures ReadLiteral((if escaped then ['\\', c] else [c]) + rest, '"') == Success([c] + value)
  {
    var text := (if escaped then ['\\', c] else [c]) + rest;
    assert text[if escaped then 2 else 1..] == rest;
  }

  lemma {:induction false} LiteralReads(value: string)
    requires Clean(value)
    ensures ReadLiteral(Escape(value) + "\"", '"') == Success(value)
  {
    if value != "" {
      var rest := Escape(value[1..]) + "\"";
      assert value[0] in value && forall c :: c in value[1..] ==> c in value;
      LiteralReads(value[1..]);
      var escaped := value[0] == '\\' || value[0] == '"';
      assert Escape(value) + "\"" == (if escaped then ['\\', value[0]] else [value[0]]) + rest;
      hide Escape;
      LiteralStep(value[0], rest, value[1..], escaped);
      assert [value[0]] + value[1..] == value;
    }
  }

  lemma {:induction false} EscapeOneLine(value: string)
    requires OneLine(value)
    ensures OneLine(Escape(value))
  {
    if value != "" { EscapeOneLine(value[1..]); }
  }

  predicate Unescaped(value: string) { '\\' !in value && '"' !in value }

  /** Escaping leaves exactly the values alone that have nothing to escape. */
  lemma {:induction false} EscapeFixed(value: string)
    ensures |Escape(value)| >= |value|
    ensures Escape(value) == value <==> Unescaped(value)
  {
    if value != "" {
      EscapeFixed(value[1..]);
      assert value == [value[0]] + value[1..];
      assert value[0] in value;
      if value[0] != '\\' && value[0] != '"' {
        assert Escape(value)[1..] == Escape(value[1..]);
      }
    }
  }

  /** Both readers on a quoted value. */
  lemma {:induction false} QuotedReads(value: string)
    requires Clean(value)
    ensures ParseValue(Quote(value)) == Success(value)
    ensures ServerValue(Quote(value)) == Escape(value)
  {
    var text := Quote(value);
    assert text[0] == '"' && text[|text| - 1] == '"';
    assert !IsSpace('"');
    StripTrimmed(text);
    hide Strip;
    LiteralReads(value);
    assert text[1..] == Escape(value) + "\"" && text[1..|text| - 1] == Escape(value);
    if value != "" { assert text[1] == Escape(value)[0]; }
  }

  // ---- Entries --------------------------------------------------------------------------------------

  function FirstEquals(line: string): (i: nat)
    ensures i <= |line| && '=' !in line[..i] && (i < |line| ==> line[i] == '=')
  {
    if line == "" || line[0] == '=' then 0 else 1 + FirstEquals(line[1..])
  }

  /** A line's key and raw value; None for a blank line, a comment, or a line without '='. */
  function EntryOf(rawLine: string): Option<(string, string)> {
    var line := Strip(rawLine);
    var i := FirstEquals(line);
    if line == "" || line[0] == '#' || i == |line| then None else Some((Strip(line[..i]), line[i + 1..]))
  }

  type Env = map<string, string>

  /** parse_env_text over its lines */
  function ParseLines(lines: seq<string>): Result<Env, EnvError> {
    if lines == [] then Success(map[])
    else
      var env :- ParseLines(lines[..|lines| - 1]);
      match EntryOf(lines[|lines| - 1])
      case None => Success(env)
      case Some((key, raw)) =>
        var value :- ParseValue(raw);
        Success(env[key := value])
  }

  function ParseText(text: string): Result<Env, EnvError> { ParseLines(SplitLines(text)) }

  /** parse_env of the server over its lines */
  function ServerLines(lines: seq<string>): Env {
    if lines == [] then map[]
    else
      var env := ServerLines(lines[..|lines| - 1]);
      match EntryOf(lines[|lines| - 1])
      case None => env
      case Some((key, raw)) => env[key := ServerValue(raw)]
  }

  function ServerText(text: string): Env { ServerLines(SplitLines(text)) }

  // ---- What the readers say about any text ------------------------------------------------------

  /** A line speaks for a key exactly when, blanks at its ends apart, it is no comment and the key stands in
      front of its first equals sign. */
  lemma {:induction false} EntryExactly(raw: string, key: string, value: string)
    ensures EntryOf(raw) == Some((key, value)) <==>
      Strip(raw) != "" && Strip(raw)[0] != '#' && exists before :: EntrySplit(Strip(raw), before, key, value)
  {
    var line := Strip(raw);
    var i := FirstEquals(line);
    hide Strip, FirstEquals;
    if i < |line| {
      assert line == line[..i] + "=" + line[i + 1..];
      if Strip(line[..i]) == key && line[i + 1..] == value { assert EntrySplit(line, line[..i], key, value); }
    }
    if exists before :: EntrySplit(line, before, key, value) {
      var before :| EntrySplit(line, before, key, value);
      EqualsAfter(before, value);
      assert line[..|before|] == before && line[|before| + 1..] == value;
    }
  }

  predicate EntrySplit(line: string, before: string, key: string, value: string) {
    line == before + "=" + value && '=' !in before && Strip(before) == key
  }

  predicate SpeaksFor(line: string, key: string) { EntryOf(line).Some? && EntryOf(line).value.0 == key }

  /** Line i is the last one that speaks for the key. */
  predicate LastFor(lines: seq<string>, key: string, i: int) {
    0 <= i < |lines| && SpeaksFor(lines[i], key) && forall j :: i < j < |lines| ==> !SpeaksFor(lines[j], key)
  }

  /** Both readers know exactly the keys some line speaks for, and the last such line has the word. */
  lemma {:induction false} LastLineWins(lines: seq<string>, key: string)
    ensures key in ServerLines(lines) <==> exists i :: LastFor(lines, key, i)
    ensures forall i :: LastFor(lines, key, i) ==>
      key in ServerLines(lines) && ServerLines(lines)[key] == ServerValue(EntryOf(lines[i]).value.1)
    ensures ParseLines(lines).Success? ==> (key in ParseLines(lines).value <==> exists i :: LastFor(lines, key, i))
    ensures ParseLines(lines).Success? ==> forall i :: LastFor(lines, key, i) ==>
      key in ParseLines(lines).value && Success(ParseLines(lines).value[key]) == ParseValue(EntryOf(lines[i]).value.1)
  {
    hide EntryOf, ParseValue, ServerValue;
    if lines != [] {
      var n := |lines| - 1;
      LastLineWins(lines[..n], key);
      LastForMore(lines, key);
      assert forall i :: 0 <= i < n ==> lines[..n][i] == lines[i];
      assert forall i :: LastFor(lines, key, i) ==> 0 <= i < |lines|;
      hide LastFor;
    }
  }

  lemma {:induction false} LastForMore(lines: seq<string>, key: string)
    requires lines != []
    ensures var n := |lines| - 1;
      && (LastFor(lines, key, n) <==> SpeaksFor(lines[n], key))
      && forall i :: i != n ==> (LastFor(lines, key, i) <==> LastFor(lines[..n], key, i) && !SpeaksFor(lines[n], key))
  {
    hide SpeaksFor;
    var init := lines[..|lines| - 1];
    assert forall i :: 0 <= i < |init| ==> init[i] == lines[i];
  }

  /** Quotes around a text that has neither such a quote nor a backslash. */
  predicate PlainlyQuoted(text: string, content: string, quote: char) {
    && quote in "\"'" && text == [quote] + content + [quote]
    && Clean(content) && quote !in content && '\\' !in content
  }

  /** A value without quotes is itself for both readers, and so is what stands between plain quotes. */
  lemma {:induction false} PlainValues(raw: string, content: string, quote: char)
    ensures Strip(raw) == "" || Strip(raw)[0] !in "\"'" ==>
      ParseValue(raw) == Success(Strip(raw)) && ServerValue(raw) == Strip(raw)
    ensures PlainlyQuoted(Strip(raw), content, quote) ==>
      ParseValue(raw) == Success(content) && ServerValue(raw) == content
  {
    if PlainlyQuoted(Strip(raw), content, quote) {
      var text := Strip(raw);
      assert text[1..] == content + [quote] && text[1..|text| - 1] == content;
      PlainLiteral(content, quote);
      assert content != "" ==> text[1] == content[0] && content[0] in content;
    }
    hide Strip, ReadLiteral;
  }

  lemma {:induction false} PlainLiteral(content: string, quote: char)
    requires Clean(content) && quote !in content && '\\' !in content && quote in "\"'"
    ensures ReadLiteral(content + [quote], quote) == Success(content)
  {
    if content != "" {
      var text := content + [quote];
      assert content[0] in content && forall c :: c in content[1..] ==> c in content;
      PlainLiteral(content[1..], quote);
      assert text[1..] == content[1..] + [quote] && content == [content[0]] + content[1..];
    }
  }

  lemma {:induction false} FailureSpreads(lines: seq<string>, i: nat)
    requires i <= |lines| && ParseLines(lines[..i]).Failure?
    ensures ParseLines(lines) == ParseLines(lines[..i])
    decreases |lines|
  {
    hide EntryOf, ParseValue;
    if i == |lines| {
      assert lines[..i] == lines;
    } else {
      assert lines[..|lines| - 1][..i] == lines[..i];
      FailureSpreads(lines[..|lines| - 1], i);
    }
  }

  /** The installer's reader: fills a map line by line and stops at a malformed value. */
  method ParseEnvText(text: string) returns (r: Result<Env, EnvError>)
    ensures r == ParseText(text)
  {
    hide EntryOf, ParseValue, SplitLines;
    var lines := SplitLines(text);
    var env: Env := map[];
    for i := 0 to |lines|
      invariant ParseLines(lines[..i]) == Success(env)
    {
      assert lines[..i + 1][..i] == lines[..i];
      var entry := EntryOf(lines[i]);
      if entry.None? { continue; }
      var value := ParseValue(entry.value.1);
      if value.Failure? {
        FailureSpreads(lines, i + 1);
        return Failure(value.error);
      }
      env := env[entry.value.0 := value.value];
    }
    assert lines[..|lines|] == lines;
    r := Success(env);
  }

  /** The server's reader: the same lines, but quotes are only cut off. */
  method ServerParseEnv(text: string) returns (env: Env)
    ensures env == ServerText(text)
  {
    hide EntryOf, ServerValue, SplitLines;
    var lines := SplitLines(text);
    env := map[];
    for i := 0 to |lines|
      invariant env == ServerLines(lines[..i])
    {
      assert lines[..i + 1][..i] == lines[..i];
      var entry := EntryOf(lines[i]);
      if entry.Some? { env := env[entry.value.0 := ServerValue(entry.value.1)]; }
    }
    assert lines[..|lines|] == lines;
  }

  /** Keys both readers keep: one line, no '=', no blank at the ends, not a comment. */
  predicate PlainKey(key: string) { OneLine(key) && '=' !in key && Trimmed(key) && (key != "" ==> key[0] != '#') }

  /** env_line */
  function EnvLine(key: string, value: string): string { key + "=" + Quote(value) }

  lemma {:induction false} EqualsAfter(key: string, rest: string)
    requires '=' !in key
    ensures FirstEquals(key + "=" + rest) == |key|
  {
    var text := key + "=" + rest;
    if key != "" {
      assert text[0] == key[0] && key[0] in key;
      assert forall c :: c in key[1..] ==> c in key;
      EqualsAfter(key[1..], rest);
      assert text[1..] == key[1..] + "=" + rest;
    }
  }

  lemma {:induction false} LineReads(key: string, value: string)
    requires PlainKey(key) && Clean(value)
    ensures EntryOf(EnvLine(key, value)) == Some((key, Quote(value)))
    ensures OneLine(EnvLine(key, value))
  {
    var line := EnvLine(key, value);
    assert !IsSpace('"') && !IsSpace('=');
    assert line[|line| - 1] == '"';
    assert line[0] == if key == "" then '=' else key[0];
    StripTrimmed(line);
    StripTrimmed(key);
    EqualsAfter(key, Quote(value));
    assert line[..|key|] == key && line[|key| + 1..] == Quote(value);
    EscapeOneLine(value);
    hide Strip, FirstEquals;
  }

  // ---- Rendering -----------------------------------------------------------------------------------

  datatype Section = Section(comment: string, keys: seq<string>)

  /** A comment both readers skip. */
  predicate IsComment(text: string) { OneLine(text) && text != "" && text[0] == '#' }

  function Restrict(env: Env, keys: set<string>): Env { map key | key in env && key in keys :: env[key] }

  /** What the server reads for these keys. */
  function AsServerReads(env: Env, keys: set<string>): Env { map key | key in env && key in keys :: Escape(env[key]) }

  ghost predicate Renderable(env: Env) { forall key :: key in env ==> PlainKey(key) && Clean(env[key]) }

  /** The lines written so far carry exactly these keys, for both readers. */
  ghost predicate Carries(lines: seq<string>, env: Env, keys: set<string>) {
    && (forall k :: 0 <= k < |lines| ==> OneLine(lines[k]))
    && ParseLines(lines) == Success(Restrict(env, keys))
    && ServerLines(lines) == AsServerReads(env, keys)
  }

  lemma {:induction false} IdleLine(lines: seq<string>, line: string, env: Env, keys: set<string>)
    requires Carries(lines, env, keys) && (line == "" || IsComment(line))
    ensures Carries(lines + [line], env, keys)
  {
    var more := lines + [line];
    assert more[..|more| - 1] == lines;
    assert EntryOf(line).None? by { SkipsIdle(line); }
    hide EntryOf, Restrict, AsServerReads;
  }

  lemma {:induction false} SkipsIdle(line: string)
    requires line == "" || line[0] == '#'
    ensures EntryOf(line).None?
  {
    assert !IsSpace('#');
    assert StripLeft(line) == line;
    StripRightFacts(line);
    StripRightStarts(line);
  }

  /** Stripping the right end keeps a first character that is not blank. */
  lemma {:induction false} StripRightStarts(text: string)
    requires text == "" || !IsSpace(text[0])
    ensures StripRight(text) == "" <==> text == ""
    ensures text != "" ==> StripRight(text)[0] == text[0]
  {
    if text != "" && IsSpace(text[|text| - 1]) { StripRightStarts(text[..|text| - 1]); }
  }

  lemma {:induction false} ReadersStep(lines: seq<string>, line: string, key: string, raw: string, value: string)
    requires EntryOf(line) == Some((key, raw)) && ParseValue(raw) == Success(value)
    ensures ParseLines(lines).Success? ==> ParseLines(lines + [line]) == Success(ParseLines(lines).value[key := value])
    ensures ServerLines(lines + [line]) == ServerLines(lines)[key := ServerValue(raw)]
  {
    hide EntryOf, ParseValue, ServerValue;
    assert (lines + [line])[..|lines|] == lines;
  }

  lemma {:induction false} EntryLine(lines: seq<string>, key: string, env: Env, keys: set<string>)
    requires Carries(lines, env, keys) && key in env && PlainKey(key) && Clean(env[key])
    ensures Carries(lines + [EnvLine(key, env[key])], env, keys + {key})
  {
    hide *;
    var line := EnvLine(key, env[key]);
    LineReads(key, env[key]);
    QuotedReads(env[key]);
    CarriesParts(lines, env, keys);
    RestrictMore(env, keys, key);
    ReadersStep(lines, line, key, Quote(env[key]), env[key]);
    CarriesMore(lines, line, env, keys, keys + {key});
  }

  lemma {:induction false} RestrictMore(env: Env, keys: set<string>, key: string)
    requires key in env
    ensures Restrict(env, keys)[key := env[key]] == Restrict(env, keys + {key})
    ensures AsServerReads(env, keys)[key := Escape(env[key])] == AsServerReads(env, keys + {key})
  {
    hide Escape;
  }

  lemma {:induction false} CarriesParts(lines: seq<string>, env: Env, keys: set<string>)
    requires Carries(lines, env, keys)
    ensures ParseLines(lines) == Success(Restrict(env, keys)) && ServerLines(lines) == AsServerReads(env, keys)
  {
  }

  lemma {:induction false} CarriesMore(lines: seq<string>, line: string, env: Env, keys: set<string>, more: set<string>)
    requires Carries(lines, env, keys) && OneLine(line)
    requires ParseLines(lines + [line]) == Success(Restrict(env, more))
             && ServerLines(lines + [line]) == AsServerReads(env, more)
    ensures Carries(lines + [line], env, more)
  {
    hide OneLine, ParseLines, ServerLines, Restrict, AsServerReads;
  }

  lemma {:induction false} ServerAgreement(env: Env)
    ensures AsServerReads(env, env.Keys) == env <==> forall key :: key in env ==> Unescaped(env[key])
  {
    forall key | key in env ensures Escape(env[key]) == env[key] <==> Unescaped(env[key]) {
      EscapeFixed(env[key]);
    }
    var read := AsServerReads(env, env.Keys);
    hide Escape, Unescaped;
    assert read.Keys == env.Keys;
    if read == env {
      forall key | key in env ensures Escape(env[key]) == env[key] {
        assert read[key] == Escape(env[key]);
      }
    }
  }

  /** What rendering promises: the installer reads the same map back, and the server reads it too
      exactly when no value holds a backslash or a double quote. */
  ghost predicate RoundTrips(text: string, env: Env) {
    && ParseText(text) == Success(env)
    && ServerText(text) == AsServerReads(env, env.Keys)
    && (ServerText(text) == env <==> forall key :: key in env ==> Unescaped(env[key]))
  }

  lemma {:induction false} CarriedRoundTrips(lines: seq<string>, env: Env)
    requires Carries(lines, env, env.Keys)
    ensures RoundTrips(if lines == [] then "\n" else Joined(lines), env)
  {
    ServerAgreement(env);
    assert Restrict(env, env.Keys) == env;
    if lines == [] {
      assert Joined([""]) == "\n" by { assert [""][1..] == []; }
      JoinedSplits([""]);
      SkipsIdle("");
      assert [""][..0] == [];
      assert ParseLines([""]) == ParseLines([]) && ServerLines([""]) == ServerLines([]);
    } else {
      JoinedSplits(lines);
    }
    hide AsServerReads, Restrict, Joined, SplitLines, Unescaped, EntryOf;
  }

  /** The entries of a section, in order. */
  method RenderKeys(before: seq<string>, keys: seq<string>, env: Env, seen: set<string>, skipSeen: bool)
    returns (lines: seq<string>, listed: set<string>)
    requires Renderable(env) && Carries(before, env, seen) && seen <= env.Keys
    ensures Carries(lines, env, listed)
    ensures listed == seen + (set key | key in keys && key in env)
  {
    lines, listed := before, seen;
    for i := 0 to |keys|
      invariant Carries(lines, env, listed)
      invariant listed == seen + (set key | key in keys[..i] && key in env)
    {
      hide Carries, EnvLine;
      assert keys[..i + 1] == keys[..i] + [keys[i]];
      var key := keys[i];
      if key !in env || (skipSeen && key in seen) { continue; }
      EntryLine(lines, key, env, listed);
      lines := lines + [EnvLine(key, env[key])];
      listed := listed + {key};
    }
    assert keys[..|keys|] == keys;
  }

  /** render_env_text; order lists the map's keys in sorted order. */
  method RenderText(env: Env, sections: seq<Section>, order: seq<string>) returns (text: string)
    requires Renderable(env)
    requires forall k :: 0 <= k < |sections| ==> sections[k].comment == "" || IsComment(sections[k].comment)
    requires forall key :: key in order <==> key in env
    ensures RoundTrips(text, env)
  {
    var lines: seq<string>, seen: set<string> := [], {};
    assert Carries(lines, env, seen);
    hide Carries, IsComment, Renderable;
    for i := 0 to |sections|
      invariant Carries(lines, env, seen) && seen <= env.Keys
    {
      var section := sections[i];
      if section.comment != "" {
        if lines != [] {
          IdleLine(lines, "", env, seen);
          lines := lines + [""];
        }
        IdleLine(lines, section.comment, env, seen);
        lines := lines + [section.comment];
      }
      lines, seen := RenderKeys(lines, section.keys, env, seen, false);
    }
    if exists key :: key in order && key !in seen {
      IdleLine(lines, "", env, seen);
      ExtraComment();
      IdleLine(lines + [""], "# Extra values", env, seen);
      lines, seen := RenderKeys(lines + [""] + ["# Extra values"], order, env, seen, true);
    }
    assert seen == env.Keys;
    CarriedRoundTrips(lines, env);
    text := if lines == [] then "\n" else Joined(lines);
  }

  lemma {:induction false} ExtraComment()
    ensures IsComment("# Extra values")
  {
  }
}
