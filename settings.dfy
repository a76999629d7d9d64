/** `src/__init__.py`: reading `KEY=value` lines from a `.env` file and
    choosing the Cloudflare credentials from the process environment or
    from that file. */
module Settings {
  import opened Wrappers
  import opened Strings

  /** Characters the value clean-up removes in front: `"`, `'`, `<`. */
  predicate IsOpening(c: char) {
    c == '"' || c == '\'' || c == '<'
  }

  /** Characters the value clean-up removes at the end: `"`, `'`, `>`. */
  predicate IsClosing(c: char) {
    c == '"' || c == '\'' || c == '>'
  }

  predicate AllOpening(s: string) {
    forall i :: 0 <= i < |s| ==> IsOpening(s[i])
  }

  predicate AllClosing(s: string) {
    forall i :: 0 <= i < |s| ==> IsClosing(s[i])
  }

  /** The length of the run of opening quotes `s` starts with. */
  function OpeningRun(s: string): (n: nat)
    ensures n <= |s| && AllOpening(s[..n])
    ensures n == |s| || !IsOpening(s[n])
  {
    if s == [] || !IsOpening(s[0]) then 0
    else
      var n := OpeningRun(s[1..]);
      assert s[..n + 1] == [s[0]] + s[1..][..n];
      n + 1
  }

  /** The length of the run of closing quotes `s` ends with. */
  function ClosingRun(s: string): (n: nat)
    ensures n <= |s| && AllClosing(s[|s| - n..])
    ensures n == |s| || !IsClosing(s[|s| - n - 1])
  {
    if s == [] || !IsClosing(s[|s| - 1]) then 0
    else
      var init := s[..|s| - 1];
      var n := ClosingRun(init);
      assert s[|s| - (n + 1)..] == init[|init| - n..] + [s[|s| - 1]];
      n + 1
  }

  /** The group `(.*?)` of `^["'<]*(.*?)["'>]*$` on a one-line value: the
      greedy leading run of opening quotes goes, then the lazy middle stops
      where only closing quotes are left. */
  function StripQuotes(v: string): (r: string)
    ensures |r| <= |v|
    ensures r == [] || (!IsOpening(r[0]) && !IsClosing(r[|r| - 1]))
  {
    var rest := v[OpeningRun(v)..];
    rest[..|rest| - ClosingRun(rest)]
  }

  /** The opening quotes `StripQuotes` removes. */
  function OpeningPart(v: string): string {
    v[..OpeningRun(v)]
  }

  /** The closing quotes `StripQuotes` removes. */
  function ClosingPart(v: string): string {
    var rest := v[OpeningRun(v)..];
    rest[|rest| - ClosingRun(rest)..]
  }

  /** The pieces `StripQuotes` removes, around what it keeps. */
  lemma StripQuotesDecomposes(v: string)
    ensures v == OpeningPart(v) + StripQuotes(v) + ClosingPart(v)
    ensures AllOpening(OpeningPart(v)) && AllClosing(ClosingPart(v))
  {
    var rest := v[OpeningRun(v)..];
    SplitAt(v, OpeningRun(v));
    SplitAt(rest, |rest| - ClosingRun(rest));
    AppendAssoc(OpeningPart(v), StripQuotes(v), ClosingPart(v));
  }

  /** Whatever way `v` splits into opening quotes, a middle that neither
      starts with an opening quote nor ends with a closing one, and closing
      quotes, the middle is what `StripQuotes` keeps. */
  lemma StripQuotesUnique(v: string, p: string, m: string, q: string)
    requires v == p + m + q && AllOpening(p) && AllClosing(q)
    requires m == [] || (!IsOpening(m[0]) && !IsClosing(m[|m| - 1]))
    ensures StripQuotes(v) == m
  {
    var a := OpeningRun(v);
    OpeningRunAtLeast(v, p);
    var rest := v[a..];
    if m == [] {
      assert v == p + q;
      assert forall i :: 0 <= i < |rest| ==> rest[i] == q[i + a - |p|];
      ClosingRunAll(rest);
      assert rest[..0] == [];
    } else {
      assert v[|p|] == m[0];
      assert a == |p|;
      assert rest == m + q;
      ClosingRunOf(m, q);
      assert rest[..|m|] == m;
    }
  }

  lemma {:induction false} OpeningRunAtLeast(v: string, p: string)
    requires |p| <= |v| && v[..|p|] == p && AllOpening(p)
    ensures OpeningRun(v) >= |p|
  {
    if p != [] {
      assert v[0] == p[0];
      assert v[1..][..|p| - 1] == p[1..];
      OpeningRunAtLeast(v[1..], p[1..]);
    }
  }

  lemma ClosingRunAll(s: string)
    requires AllClosing(s)
    ensures ClosingRun(s) == |s|
  {
    var n := ClosingRun(s);
    if n < |s| {
      assert IsClosing(s[|s| - n - 1]);
    }
  }

  lemma {:induction false} ClosingRunOf(m: string, q: string)
    requires m != [] && !IsClosing(m[|m| - 1]) && AllClosing(q)
    ensures ClosingRun(m + q) == |q|
    decreases |q|
  {
    var s := m + q;
    if q == [] {
      assert s == m;
    } else {
      var init := s[..|s| - 1];
      assert init == m + q[..|q| - 1];
      assert s[|s| - 1] == q[|q| - 1];
      ClosingRunOf(m, q[..|q| - 1]);
    }
  }

  /** `re.sub(r'^["\'<]*(.*?)["\'>]*$', r'\1', value)`. `.` does not match
      a line feed and `$` also matches just before a final one, so a value
      whose only line feed is its last character is cleaned up in front of
      it, and a value with any other line feed is left alone. */
  function Unquote(v: string): (r: string)
    ensures '\n' !in v ==> r == StripQuotes(v)
  {
    match IndexOf(v, '\n')
    case None => StripQuotes(v)
    case Some(i) => if i == |v| - 1 then StripQuotes(v[..i]) + "\n" else v
  }

  /** What one line of the `.env` file contributes. */
  datatype LineParse = Skip | Assign(key: string, value: string) | Malformed(line: string)

  /** The body of `dot_env`'s loop for one line: blank lines and lines
      starting with `#` after stripping are skipped; otherwise the line is
      split at its first `=` (a line without one makes the unpacking of
      `split('=', 1)` raise), both sides are stripped and the value loses
      its quotes. */
  function ParseLine(line: string): LineParse {
    var s := Strip(line);
    if s == [] || StartsWith(s, "#") then Skip
    else
      match IndexOf(s, '=')
      case None => Malformed(s)
      case Some(i) => Assign(Strip(s[..i]), Unquote(Strip(s[i + 1..])))
  }

  /** A line is skipped exactly when it is blank or a comment. */
  lemma ParseLineSkip(line: string)
    ensures ParseLine(line) == Skip <==> AllSpace(line) || StartsWith(Strip(line), "#")
  {
  }

  /** A line is malformed exactly when it is neither blank nor a comment and
      has no `=`. */
  lemma ParseLineMalformed(line: string)
    ensures ParseLine(line).Malformed?
            <==> !AllSpace(line) && !StartsWith(Strip(line), "#") && '=' !in Strip(line)
  {
    var s := Strip(line);
    if s != [] && !StartsWith(s, "#") && '=' in s {
      assert IndexOf(s, '=').Some?;
    }
  }

  /** `KEY=VALUE` with a key free of `=` (and not a comment) gives the
      stripped key and the unquoted stripped value, whatever whitespace
      surrounds either and whatever `=` signs the value itself holds. */
  lemma ParseLineOf(k: string, v: string)
    requires '=' !in k && (Strip(k) == [] || Strip(k)[0] != '#')
    ensures ParseLine(k + "=" + v) == Assign(Strip(k), Unquote(Strip(v)))
  {
    var tk, rv := TrimLeft(k), TrimRight(v);
    assert Strip(k + "=" + v) == tk + "=" + rv by {
      StripAround(k, '=', v);
    }
    assert '=' !in tk && (tk == [] || tk[0] != '#') by {
      TrimLeftKeeps(k, '=');
      TrimLeftHead(k);
    }
    assert Strip(tk) == Strip(k) by {
      StripOfTrimLeft(k);
    }
    assert Strip(rv) == Strip(v) by {
      StripOfTrimRight(v);
    }
    ParseStripped(k + "=" + v, tk, rv);
  }

  /** A line that strips to `key=value`, with no `=` in the key and the key
      not starting with `#`, assigns the stripped halves. */
  lemma ParseStripped(line: string, key: string, value: string)
    requires Strip(line) == key + "=" + value
    requires '=' !in key && (key == [] || key[0] != '#')
    ensures ParseLine(line) == Assign(Strip(key), Unquote(Strip(value)))
  {
    KeyValueShape(Strip(line), key, value);
    ParseLineAt(line, |key|);
  }

  lemma KeyValueShape(s: string, key: string, value: string)
    requires s == key + "=" + value
    requires '=' !in key && (key == [] || key[0] != '#')
    ensures s != [] && !StartsWith(s, "#") && IndexOf(s, '=') == Some(|key|)
    ensures s[..|key|] == key && s[|key| + 1..] == value
  {
    IndexOfAt(s, '=', |key|);
    assert s[..1] == [s[0]] && s[0] != '#';
  }

  lemma ParseLineSkipAt(line: string)
    requires Strip(line) == [] || StartsWith(Strip(line), "#")
    ensures ParseLine(line) == Skip
  {
  }

  lemma ParseLineNoneAt(line: string)
    requires Strip(line) != [] && !StartsWith(Strip(line), "#") && IndexOf(Strip(line), '=') == None
    ensures ParseLine(line) == Malformed(Strip(line))
  {
  }

  lemma ParseLineAt(line: string, i: nat)
    requires Strip(line) != [] && !StartsWith(Strip(line), "#") && IndexOf(Strip(line), '=') == Some(i)
    ensures ParseLine(line) == Assign(Strip(Strip(line)[..i]), Unquote(Strip(Strip(line)[i + 1..])))
  {
  }

  /** One pass of `dot_env`'s loop: the dictionary so far, updated by the
      parsed line, or the stripped line that made the loop raise. */
  function Apply(acc: Result<map<string, string>, string>, p: LineParse): Result<map<string, string>, string>
  {
    match acc
    case Err(e) => Err(e)
    case Ok(env) =>
      match p
      case Skip => Ok(env)
      case Malformed(line) => Err(line)
      case Assign(k, v) => Ok(env[k := v])
  }

  /** The loop run over parsed lines, in order. */
  function Collect(ps: seq<LineParse>): Result<map<string, string>, string>
  {
    if ps == [] then Ok(map[])
    else Apply(Collect(ps[..|ps| - 1]), ps[|ps| - 1])
  }

  function Parsed(lines: seq<string>): (ps: seq<LineParse>)
    ensures |ps| == |lines|
  {
    seq(|lines|, i requires 0 <= i < |lines| => ParseLine(lines[i]))
  }

  /** The dictionary `dot_env` builds from the lines, or the stripped first
      line that made it raise. */
  function Entries(lines: seq<string>): Result<map<string, string>, string>
  {
    Collect(Parsed(lines))
  }

  lemma CollectStep(ps: seq<LineParse>, i: nat)
    requires i < |ps|
    ensures Collect(ps[..i + 1]) == Apply(Collect(ps[..i]), ps[i])
  {
    assert ps[..i + 1][..i] == ps[..i];
  }

  /** A failed read stays failed whatever lines follow. */
  lemma {:induction false} CollectErrSticky(ps: seq<LineParse>, n: nat)
    requires n <= |ps| && Collect(ps[..n]).Err?
    ensures Collect(ps) == Collect(ps[..n])
    decreases |ps| - n
  {
    if n < |ps| {
      CollectStep(ps, n);
      CollectErrSticky(ps, n + 1);
    } else {
      assert ps[..n] == ps;
    }
  }

  /** Reading stops at the first malformed line, and only there. */
  lemma {:induction false} CollectErr(ps: seq<LineParse>)
    ensures Collect(ps).Err? <==> exists i :: 0 <= i < |ps| && ps[i].Malformed?
    ensures Collect(ps).Err? ==>
              exists i :: 0 <= i < |ps| && ps[i].Malformed? && Collect(ps).error == ps[i].line
                          && forall j :: 0 <= j < i ==> !ps[j].Malformed?
  {
    if ps != [] {
      var n := |ps| - 1;
      var init := ps[..n];
      CollectErr(init);
      assert forall i :: 0 <= i < n ==> init[i] == ps[i];
    }
  }

  /** Keys come only from assignments, and every assigned key is kept. */
  lemma {:induction false} CollectKeys(ps: seq<LineParse>, key: string)
    requires Collect(ps).Ok?
    ensures key in Collect(ps).value <==> exists i :: 0 <= i < |ps| && ps[i].Assign? && ps[i].key == key
  {
    if ps != [] {
      var n := |ps| - 1;
      var init := ps[..n];
      CollectKeys(init, key);
      assert forall i :: 0 <= i < n ==> init[i] == ps[i];
    }
  }

  /** When a key is assigned more than once, the last assignment wins. */
  lemma {:induction false} CollectLastWins(ps: seq<LineParse>, key: string)
    requires Collect(ps).Ok? && key in Collect(ps).value
    ensures exists i :: 0 <= i < |ps| && ps[i] == Assign(key, Collect(ps).value[key])
                        && forall j :: i < j < |ps| ==> !(ps[j].Assign? && ps[j].key == key)
  {
    var n := |ps| - 1;
    var init := ps[..n];
    if !(ps[n].Assign? && ps[n].key == key) {
      CollectLastWins(init, key);
      assert forall i :: 0 <= i < n ==> init[i] == ps[i];
    }
  }

  /** `dot_env(file_path)`, given the file's text, or `None` when the file
      does not exist. */
  method DotEnv(file: Option<string>) returns (result: Result<map<string, string>, string>)
    ensures file.None? ==> result == Ok(map[])
    ensures file.Some? ==> result == Entries(Lines(file.value))
  {
    if file.None? {
      return Ok(map[]);
    }
    result := ReadEntries(Lines(file.value));
  }

  /** `dot_env`'s loop over the file's lines. */
  method ReadEntries(lines: seq<string>) returns (result: Result<map<string, string>, string>)
    ensures result == Entries(lines)
  {
    var env: map<string, string> := map[];
    var i := 0;
    ghost var ps := Parsed(lines);
    while i < |lines|
      invariant 0 <= i <= |lines|
      invariant Collect(ps[..i]) == Ok(env)
    {
      var p := ParseOne(lines[i]);
      assert Collect(ps[..i + 1]) == Apply(Ok(env), p) by {
        assert ps[i] == p;
        CollectStep(ps, i);
      }
      match p {
        case Skip =>
        case Malformed(line) =>
          assert Collect(ps) == Err(line) by { CollectErrSticky(ps, i + 1); }
          return Err(line);
        case Assign(key, value) =>
          env := env[key := value];
      }
      i := i + 1;
    }
    assert Collect(ps) == Ok(env) by { assert ps[..i] == ps; }
    return Ok(env);
  }

  /** The body of `dot_env`'s loop for one line, as written: strip, skip
      blank and comment lines, split at the first `=`, strip both sides and
      unquote the value. */
  method ParseOne(raw: string) returns (p: LineParse)
    ensures p == ParseLine(raw)
  {
    var line := Strip(raw);
    if line == [] || StartsWith(line, "#") {
      assert ParseLine(raw) == Skip by { ParseLineSkipAt(raw); }
      return Skip;
    }
    match IndexOf(line, '=') {
      case None =>
        assert ParseLine(raw) == Malformed(line) by { ParseLineNoneAt(raw); }
        return Malformed(line);
      case Some(j) =>
        var key := Strip(line[..j]);
        var value := Strip(line[j + 1..]);
        value := Unquote(value);
        assert ParseLine(raw) == Assign(key, value) by { ParseLineAt(raw, j); }
        return Assign(key, value);
    }
  }

  /** `os.getenv(name) or env_vars.get(name)`: a non-empty process
      environment value, otherwise whatever the `.env` file holds. */
  function Setting(environ: map<string, string>, fileVars: map<string, string>, name: string): (r: Option<string>)
    ensures name in environ && environ[name] != "" ==> r == Some(environ[name])
    ensures !(name in environ && environ[name] != "") ==>
              (r.Some? <==> name in fileVars) && (r.Some? ==> r.value == fileVars[name])
  {
    if name in environ && environ[name] != "" then Some(environ[name])
    else if name in fileVars then Some(fileVars[name])
    else None
  }

  /** The setting is present (set and non-empty) in one of the two places. */
  predicate Present(environ: map<string, string>, fileVars: map<string, string>, name: string) {
    (name in environ && environ[name] != "") || (name in fileVars && fileVars[name] != "")
  }

  const TokenName := "CF_API_TOKEN"
  const IdentifierName := "CF_IDENTIFIER"
  const MissingCredentials := "Missing Cloudflare credentials"

  datatype Credentials = Credentials(apiToken: string, identifier: string)

  /** `CF_API_TOKEN` and `CF_IDENTIFIER`, raising when either is missing or
      empty. */
  function LoadCredentials(environ: map<string, string>, fileVars: map<string, string>): (r: Result<Credentials, string>)
    ensures r.Ok? <==> Present(environ, fileVars, TokenName) && Present(environ, fileVars, IdentifierName)
    ensures r.Err? ==> r.error == MissingCredentials
    ensures r.Ok? ==> r.value.apiToken != "" && r.value.identifier != ""
    ensures r.Ok? ==> Some(r.value.apiToken) == Setting(environ, fileVars, TokenName)
                      && Some(r.value.identifier) == Setting(environ, fileVars, IdentifierName)
  {
    var token := Setting(environ, fileVars, TokenName);
    var identifier := Setting(environ, fileVars, IdentifierName);
    if token.None? || token.value == "" || identifier.None? || identifier.value == "" then
      Err(MissingCredentials)
    else
      Ok(Credentials(token.value, identifier.value))
  }
}
