/** The Python string built-ins the program relies on: `str.isspace` as used
    by `strip`/`split` and regex `\s`, `str.strip`, `str.startswith`,
    `str.split()`, `str.find`, `sep.join`, iterating over the lines of a text
    file, and integer formatting with `str(n)` and `f"{n:03d}"`. */
module Strings {
  import opened Wrappers

  /** ASCII whitespace: space, tab, line feed, vertical tab, form feed,
      carriage return. */
  predicate IsSpace(c: char) {
    c == ' ' || c == '\t' || c == '\n' || c == '\U{000B}' || c == '\U{000C}' || c == '\r'
  }

  predicate AllSpace(s: string) {
    forall i :: 0 <= i < |s| ==> IsSpace(s[i])
  }

  predicate NoSpace(s: string) {
    forall i :: 0 <= i < |s| ==> !IsSpace(s[i])
  }

  predicate AllDigits(s: string) {
    forall i :: 0 <= i < |s| ==> IsDigit(s[i])
  }

  /** `s.startswith(prefix)` */
  predicate StartsWith(s: string, prefix: string) {
    |prefix| <= |s| && s[..|prefix|] == prefix
  }

  lemma StartsWithAppend(prefix: string, rest: string)
    ensures StartsWith(prefix + rest, prefix)
  {
    assert (prefix + rest)[..|prefix|] == prefix;
  }

  /** `s.lstrip()` */
  function TrimLeft(s: string): (r: string)
    ensures |r| <= |s| && r == s[|s| - |r|..]
    ensures AllSpace(s[..|s| - |r|])
    ensures r == [] || !IsSpace(r[0])
  {
    if s != [] && IsSpace(s[0]) then
      var r := TrimLeft(s[1..]);
      assert s[1..][..|s| - 1 - |r|] == s[1..|s| - |r|];
      r
    else
      s
  }

  /** `s.rstrip()` */
  function TrimRight(s: string): (r: string)
    ensures |r| <= |s| && r == s[..|r|]
    ensures AllSpace(s[|r|..])
    ensures r == [] || !IsSpace(r[|r| - 1])
  {
    if s != [] && IsSpace(s[|s| - 1]) then
      var init := s[..|s| - 1];
      var r := TrimRight(init);
      assert init[..|r|] == s[..|r|];
      assert s[|r|..] == init[|r|..] + [s[|s| - 1]];
      r
    else
      s
  }

  /** `s.strip()`: the part of `s` between its leading and its trailing
      whitespace. */
  function Strip(s: string): (r: string)
    ensures |r| <= |s|
    ensures r == [] || (!IsSpace(r[0]) && !IsSpace(r[|r| - 1]))
    ensures r == [] <==> AllSpace(s)
  {
    var t := TrimLeft(s);
    var r := TrimRight(t);
    assert s == s[..|s| - |t|] + t;
    r
  }

  /** The whitespace `s.strip()` removes in front. */
  function LeadingSpace(s: string): string {
    s[..|s| - |TrimLeft(s)|]
  }

  /** The whitespace `s.strip()` removes at the end. */
  function TrailingSpace(s: string): string {
    var t := TrimLeft(s);
    t[|TrimRight(t)|..]
  }

  /** Stripping keeps exactly a contiguous piece of the input: `s` is that
      piece with whitespace before and after it. */
  lemma StripDecomposes(s: string)
    ensures s == LeadingSpace(s) + Strip(s) + TrailingSpace(s)
    ensures AllSpace(LeadingSpace(s)) && AllSpace(TrailingSpace(s))
  {
    var t := TrimLeft(s);
    var r := TrimRight(t);
    LeadingSplit(s);
    TrailingSplit(t);
    AppendAssoc(LeadingSpace(s), r, t[|r|..]);
  }

  lemma SplitAt<T>(s: seq<T>, i: nat)
    requires i <= |s|
    ensures s == s[..i] + s[i..]
  {
  }

  lemma TailAppend<T>(w: seq<T>, rest: seq<T>)
    requires w != []
    ensures (w + rest)[1..] == w[1..] + rest && (w + rest)[0] == w[0]
  {
  }

  lemma DropPrefix<T>(a: seq<T>, b: seq<T>)
    ensures (a + b)[|a|..] == b
  {
  }

  lemma DropSuffix<T>(a: seq<T>, b: seq<T>)
    ensures (a + b)[..|a|] == a
  {
  }

  lemma PrefixSplit<T>(s: seq<T>, h: nat, n: nat)
    requires h <= n <= |s|
    ensures s[..n] == s[..h] + s[h..n]
  {
  }

  lemma SnocLast<T>(s: seq<T>)
    requires s != []
    ensures s[..|s| - 1] + [s[|s| - 1]] == s
  {
  }

  lemma AppendAssoc<T>(a: seq<T>, b: seq<T>, c: seq<T>)
    ensures a + (b + c) == a + b + c
  {
  }

  lemma LeadingSplit(s: string)
    ensures s == LeadingSpace(s) + TrimLeft(s)
  {
    var i := |s| - |TrimLeft(s)|;
    assert s == s[..i] + s[i..];
  }

  lemma TrailingSplit(t: string)
    ensures t == TrimRight(t) + t[|TrimRight(t)|..]
  {
    var j := |TrimRight(t)|;
    assert t == t[..j] + t[j..];
  }

  /** A string without surrounding whitespace is its own strip. */
  lemma StripFixed(s: string)
    requires s == [] || (!IsSpace(s[0]) && !IsSpace(s[|s| - 1]))
    ensures Strip(s) == s
  {
  }

  lemma StripIdempotent(s: string)
    ensures Strip(Strip(s)) == Strip(s)
  {
    StripFixed(Strip(s));
  }

  /** Whatever whitespace surrounds a piece without surrounding whitespace,
      stripping gives back the piece. */
  lemma StripOf(a: string, m: string, b: string)
    requires AllSpace(a) && AllSpace(b)
    requires m == [] || (!IsSpace(m[0]) && !IsSpace(m[|m| - 1]))
    ensures Strip(a + m + b) == m
  {
    if m == [] {
      AllSpaceAppend(a, b);
      assert a + m + b == a + b;
    } else {
      var s := a + m + b;
      StripDecomposes(s);
      SameMiddle(LeadingSpace(s), Strip(s), TrailingSpace(s), a, m, b);
    }
  }

  /** Two ways of writing a string as whitespace, a piece with non-space
      ends, and whitespace agree on the piece when the second piece is not
      empty. */
  lemma SameMiddle(l: string, r: string, t: string, a: string, m: string, b: string)
    requires l + r + t == a + m + b
    requires AllSpace(l) && AllSpace(t) && AllSpace(a) && AllSpace(b)
    requires r == [] || (!IsSpace(r[0]) && !IsSpace(r[|r| - 1]))
    requires m != [] && !IsSpace(m[0]) && !IsSpace(m[|m| - 1])
    ensures r == m
  {
    var s := a + m + b;
    assert s[|a|] == m[0];
    assert forall i :: 0 <= i < |l| ==> s[i] == l[i];
    assert forall i :: 0 <= i < |a| ==> s[i] == a[i];
    assert forall i :: |s| - |t| <= i < |s| ==> s[i] == t[i - (|s| - |t|)];
    assert forall i :: |s| - |b| <= i < |s| ==> s[i] == b[i - (|s| - |b|)];
    assert !IsSpace(s[|a|]);
    assert r != [];
    assert s[|l|] == r[0];
    assert |l| == |a|;
    assert s[|s| - |t| - 1] == r[|r| - 1] && s[|s| - |b| - 1] == m[|m| - 1];
    assert |t| == |b|;
    assert r == s[|a|..|s| - |b|];
    assert m == s[|a|..|s| - |b|];
  }

  lemma AllSpaceAppend(a: string, b: string)
    requires AllSpace(a) && AllSpace(b)
    ensures AllSpace(a + b)
  {
    assert forall i :: 0 <= i < |a + b| ==> (a + b)[i] == if i < |a| then a[i] else b[i - |a|];
  }

  /** Stripping what `lstrip` left gives the strip of the whole. */
  lemma StripOfTrimLeft(s: string)
    ensures Strip(TrimLeft(s)) == Strip(s)
  {
    var t := TrimLeft(s);
    assert TrimLeft(t) == t;
  }

  /** `lstrip` adds no character. */
  lemma TrimLeftKeeps(s: string, c: char)
    requires c !in s
    ensures c !in TrimLeft(s)
  {
    var t := TrimLeft(s);
    assert forall j :: 0 <= j < |t| ==> t[j] == s[|s| - |t| + j];
  }

  /** When anything is left after `lstrip`, `strip` keeps its first
      character. */
  lemma TrimLeftHead(s: string)
    ensures TrimLeft(s) != [] ==> Strip(s) != [] && Strip(s)[0] == TrimLeft(s)[0]
  {
    var t := TrimLeft(s);
    if t != [] {
      assert s[|s| - |t|] == t[0];
      assert !AllSpace(s);
    }
  }

  /** Stripping what `rstrip` left gives the strip of the whole. */
  lemma StripOfTrimRight(s: string)
    ensures Strip(TrimRight(s)) == Strip(s)
  {
    var t := TrimRight(s);
    var w := s[|t|..];
    var lt, st, tt := LeadingSpace(t), Strip(t), TrailingSpace(t);
    TrailingSplit(s);
    StripDecomposes(t);
    AllSpaceAppend(tt, w);
    RegroupRight(s, t, w, lt, st, tt);
    StripOf(lt, st, tt + w);
  }

  /** Around a non-space character, stripping the whole removes the
      leading whitespace of the left part and the trailing whitespace of
      the right part only. */
  lemma StripAround(k: string, c: char, v: string)
    requires !IsSpace(c)
    ensures Strip(k + [c] + v) == TrimLeft(k) + [c] + TrimRight(v)
  {
    var lk, tk := LeadingSpace(k), TrimLeft(k);
    var rv := TrimRight(v);
    var w := v[|rv|..];
    var m := tk + [c] + rv;
    LeadingSplit(k);
    TrailingSplit(v);
    assert m[0] == if tk == [] then c else tk[0];
    assert m[|m| - 1] == if rv == [] then c else rv[|rv| - 1];
    RegroupAround(k, lk, tk, [c], v, rv, w);
    StripOf(lk, m, w);
  }

  lemma RegroupRight<T>(s: seq<T>, t: seq<T>, w: seq<T>, b: seq<T>, c: seq<T>, d: seq<T>)
    requires s == t + w && t == b + c + d
    ensures s == b + c + (d + w)
  {
  }

  lemma RegroupAround<T>(k: seq<T>, lk: seq<T>, tk: seq<T>, x: seq<T>, v: seq<T>, rv: seq<T>, w: seq<T>)
    requires k == lk + tk && v == rv + w
    ensures k + x + v == lk + (tk + x + rv) + w
  {
  }

  /** `sep.join(parts)` */
  function Join(sep: string, parts: seq<string>): (r: string)
    ensures parts == [] ==> r == []
    ensures |parts| == 1 ==> r == parts[0]
  {
    if parts == [] then []
    else if |parts| == 1 then parts[0]
    else parts[0] + sep + Join(sep, parts[1..])
  }

  /** Joining one more part adds the separator and that part. */
  lemma {:induction false} JoinSnoc(sep: string, ps: seq<string>, p: string)
    requires ps != []
    ensures Join(sep, ps + [p]) == Join(sep, ps) + sep + p
  {
    var qs := ps + [p];
    if |ps| == 1 {
      assert qs[1..] == [p];
    } else {
      assert qs[1..] == ps[1..] + [p];
      JoinSnoc(sep, ps[1..], p);
      var j := Join(sep, ps[1..]);
      AppendAssoc(ps[0] + sep, j, sep + p);
      AppendAssoc(ps[0] + sep + j, sep, p);
    }
  }

  /** The concatenation of all parts, `"".join(parts)`. */
  function Concat(parts: seq<string>): (r: string)
    ensures |parts| == 1 ==> r == parts[0]
  {
    if parts == [] then [] else parts[0] + Concat(parts[1..])
  }

  lemma {:induction false} ConcatAppend(a: seq<string>, b: seq<string>)
    ensures Concat(a + b) == Concat(a) + Concat(b)
  {
    if a == [] {
      assert a + b == b;
    } else {
      assert (a + b)[1..] == a[1..] + b;
      ConcatAppend(a[1..], b);
    }
  }

  predicate IsDigit(c: char) {
    '0' <= c <= '9'
  }

  function DigitChar(d: nat): char
    requires d < 10
  {
    ['0', '1', '2', '3', '4', '5', '6', '7', '8', '9'][d]
  }

  function DigitValue(c: char): nat
    requires IsDigit(c)
  {
    (c as int - '0' as int) as nat
  }

  /** `str(n)`: the decimal digits of `n`, most significant first. */
  function Decimal(n: nat): (r: string)
    ensures |r| >= 1
    ensures AllDigits(r)
    ensures n >= 10 <==> |r| >= 2
    ensures |r| >= 2 ==> r[0] != '0'
  {
    if n < 10 then [DigitChar(n)] else Decimal(n / 10) + [DigitChar(n % 10)]
  }

  /** The value of a string of decimal digits (`int(s)`); the empty string
      reads as 0. */
  function ParseDecimal(s: string): nat
    requires AllDigits(s)
  {
    if s == [] then 0 else ParseDecimal(s[..|s| - 1]) * 10 + DigitValue(s[|s| - 1])
  }

  lemma {:induction false} DecimalRoundTrip(n: nat)
    ensures ParseDecimal(Decimal(n)) == n
  {
    if n >= 10 {
      var d := Decimal(n);
      assert d[..|d| - 1] == Decimal(n / 10);
      DecimalRoundTrip(n / 10);
    }
  }

  /** Different numbers print differently. */
  lemma DecimalInjective(a: nat, b: nat)
    requires Decimal(a) == Decimal(b)
    ensures a == b
  {
    DecimalRoundTrip(a);
    DecimalRoundTrip(b);
  }

  /** Leading zeros do not change the value of a digit string. */
  lemma {:induction false} ParseDecimalLeadingZeros(k: nat, s: string)
    requires AllDigits(s)
    ensures AllDigits(Zeros(k) + s)
    ensures ParseDecimal(Zeros(k) + s) == ParseDecimal(s)
  {
    var z := Zeros(k);
    if s == [] {
      assert z + s == z;
      ZerosReadAsZero(k);
    } else {
      assert (z + s)[..|z + s| - 1] == z + s[..|s| - 1];
      ParseDecimalLeadingZeros(k, s[..|s| - 1]);
    }
  }

  function Zeros(k: nat): (r: string)
    ensures |r| == k && AllDigits(r)
  {
    seq(k, _ => '0')
  }

  lemma {:induction false} ZerosReadAsZero(k: nat)
    ensures ParseDecimal(Zeros(k)) == 0
  {
    if k > 0 {
      assert Zeros(k)[..k - 1] == Zeros(k - 1);
      ZerosReadAsZero(k - 1);
    }
  }

  /** `f"{n:03d}"`: the decimal digits of `n`, padded on the left with
      zeros to at least three characters. */
  function ZeroPad3(n: nat): (r: string)
    ensures |r| == if n < 1000 then 3 else |Decimal(n)|
    ensures AllDigits(r)
    ensures ParseDecimal(r) == n
  {
    var d := Decimal(n);
    DecimalRoundTrip(n);
    DecimalWidth(n);
    if |d| < 3 then
      ParseDecimalLeadingZeros(3 - |d|, d);
      Zeros(3 - |d|) + d
    else
      d
  }

  lemma DecimalWidth(n: nat)
    ensures n < 1000 <==> |Decimal(n)| <= 3
  {
    if n >= 10 {
      DecimalWidth(n / 10);
    }
  }

  /** `s.find(c)`: the index of the first `c` in `s`, if there is one. */
  function IndexOf(s: string, c: char): (r: Option<nat>)
    ensures r.None? ==> c !in s
    ensures r.Some? ==> r.value < |s| && s[r.value] == c && c !in s[..r.value]
  {
    if s == [] then None
    else if s[0] == c then Some(0)
    else
      match IndexOf(s[1..], c)
      case None => None
      case Some(i) =>
        assert s[..i + 1] == [s[0]] + s[1..][..i];
        Some(i + 1)
  }

  /** The first occurrence is where `c` stands with no `c` before it. */
  lemma IndexOfAt(s: string, c: char, i: nat)
    requires i < |s| && s[i] == c && c !in s[..i]
    ensures IndexOf(s, c) == Some(i)
  {
    assert s[i] in s;
  }

  /** `s.split(c)`: the pieces between the occurrences of `c`. */
  function Split(s: string, c: char): (r: seq<string>)
    ensures |r| >= 1 && Join([c], r) == s
    decreases |s|
  {
    match IndexOf(s, c)
    case None => [s]
    case Some(i) =>
      var rest := Split(s[i + 1..], c);
      assert s == s[..i] + [c] + s[i + 1..];
      var r := [s[..i]] + rest;
      assert r[1..] == rest;
      r
  }

  /** No piece of `s.split(c)` holds `c`. */
  lemma {:induction false} SplitPieces(s: string, c: char)
    ensures forall i :: 0 <= i < |Split(s, c)| ==> c !in Split(s, c)[i]
    decreases |s|
  {
    match IndexOf(s, c)
    case None =>
    case Some(i) =>
      SplitPieces(s[i + 1..], c);
      var rest := Split(s[i + 1..], c);
      assert Split(s, c) == [s[..i]] + rest;
  }

  /** Joining pieces free of `c` with `c` and splitting at `c` gives the
      pieces back. */
  lemma {:induction false} SplitJoin(ps: seq<string>, c: char)
    requires |ps| >= 1
    requires forall i :: 0 <= i < |ps| ==> c !in ps[i]
    ensures Split(Join([c], ps), c) == ps
  {
    if |ps| == 1 {
      assert Join([c], ps) == ps[0];
    } else {
      var tail := ps[1..];
      assert forall i :: 0 <= i < |tail| ==> tail[i] == ps[i + 1];
      var rest := Join([c], tail);
      var s := Join([c], ps);
      assert s == ps[0] + [c] + rest;
      assert s[..|ps[0]|] == ps[0] && s[|ps[0]|] == c && s[|ps[0]| + 1..] == rest;
      IndexOfAt(s, c, |ps[0]|);
      SplitJoin(tail, c);
      assert [ps[0]] + tail == ps;
    }
  }

  /** One line as `for line in f` yields it: not empty, and a line feed
      only as its last character. */
  predicate IsLine(line: string) {
    line != [] && '\n' !in line[..|line| - 1]
  }

  /** Every element is a line, and every line but the last ends with its
      line feed. */
  predicate LineShaped(lines: seq<string>) {
    lines == []
    || (IsLine(lines[0])
        && (|lines| > 1 ==> lines[0][|lines[0]| - 1] == '\n')
        && LineShaped(lines[1..]))
  }

  /** The lines of a text file as `for line in f` yields them: each ends
      with its '\n', except a last line the file does not end. */
  function Lines(text: string): (r: seq<string>)
    ensures Concat(r) == text
    ensures LineShaped(r)
    decreases |text|
  {
    if text == [] then []
    else
      match IndexOf(text, '\n')
      case None =>
        assert text[..|text| - 1] == text[..|text|][..|text| - 1];
        [text]
      case Some(i) =>
        var line := text[..i + 1];
        var rest := Lines(text[i + 1..]);
        assert line[..|line| - 1] == text[..i];
        assert text == line + text[i + 1..];
        var r := [line] + rest;
        assert r[1..] == rest;
        r
  }

  /** The length of the run of non-whitespace that `s` starts with. */
  function TokenLength(s: string): (n: nat)
    ensures n <= |s| && NoSpace(s[..n])
    ensures n == |s| || IsSpace(s[n])
    ensures s != [] && !IsSpace(s[0]) ==> n >= 1
  {
    if s == [] || IsSpace(s[0]) then 0
    else
      var n := TokenLength(s[1..]);
      assert s[..n + 1] == [s[0]] + s[1..][..n];
      n + 1
  }

  /** Every element is a non-empty run of non-whitespace. */
  predicate AllWords(ws: seq<string>) {
    ws == [] || (ws[0] != [] && NoSpace(ws[0]) && AllWords(ws[1..]))
  }

  lemma {:induction false} AllWordsIff(ws: seq<string>)
    ensures AllWords(ws) <==> forall i :: 0 <= i < |ws| ==> ws[i] != [] && NoSpace(ws[i])
  {
    if ws != [] {
      var tail := ws[1..];
      assert forall i :: 0 <= i < |tail| ==> tail[i] == ws[i + 1];
      AllWordsIff(tail);
      if AllWords(ws) {
        forall i | 0 <= i < |ws|
          ensures ws[i] != [] && NoSpace(ws[i])
        {
          if i > 0 {
            assert ws[i] == tail[i - 1];
          }
        }
      }
    }
  }

  /** `s.split()`: the runs of non-whitespace, in order. */
  function Words(s: string): (r: seq<string>)
    ensures AllWords(r)
    decreases |s|
  {
    var t := TrimLeft(s);
    if t == [] then []
    else
      var n := TokenLength(t);
      var w := t[..n];
      var rest := Words(t[n..]);
      assert w != [] && NoSpace(w);
      assert ([w] + rest)[1..] == rest;
      [w] + rest
  }

  /** There are no words exactly when the text is all whitespace. */
  lemma WordsNone(s: string)
    ensures Words(s) == [] <==> AllSpace(s)
  {
    var t := TrimLeft(s);
    if t != [] {
      assert s[|s| - |t|] == t[0];
    } else {
      assert s == s[..|s|];
    }
  }

  lemma TrimLeftSpace(c: char, s: string)
    requires IsSpace(c)
    ensures TrimLeft([c] + s) == TrimLeft(s)
  {
    assert ([c] + s)[1..] == s;
  }

  /** Leading whitespace does not change the words. */
  lemma WordsSpace(c: char, s: string)
    requires IsSpace(c)
    ensures Words([c] + s) == Words(s)
  {
    TrimLeftSpace(c, s);
  }

  /** A word followed by whitespace or by nothing is the first word. */
  lemma WordsStep(w: string, rest: string)
    requires w != [] && NoSpace(w)
    requires rest == [] || IsSpace(rest[0])
    ensures Words(w + rest) == [w] + Words(rest)
  {
    var s := w + rest;
    assert s[0] == w[0];
    assert TrimLeft(s) == s;
    TokenLengthOf(w, rest);
    assert s[|w|..] == rest;
  }

  lemma WordsOne(w: string)
    requires w != [] && NoSpace(w)
    ensures Words(w) == [w]
  {
    WordsStep(w, []);
    assert w + [] == w;
  }

  lemma WordsJoinStep(ws: seq<string>)
    requires |ws| > 1 && ws[0] != [] && NoSpace(ws[0])
    ensures Words(Join(" ", ws)) == [ws[0]] + Words(Join(" ", ws[1..]))
  {
    var rest := Join(" ", ws[1..]);
    assert Join(" ", ws) == ws[0] + ([' '] + rest);
    WordsStep(ws[0], [' '] + rest);
    WordsSpace(' ', rest);
  }

  lemma {:induction false} WordsJoinAll(ws: seq<string>)
    requires AllWords(ws)
    ensures Words(Join(" ", ws)) == ws
  {
    if ws == [] {
    } else if |ws| == 1 {
      WordsOne(ws[0]);
    } else {
      WordsJoinStep(ws);
      WordsJoinAll(ws[1..]);
      assert [ws[0]] + ws[1..] == ws;
    }
  }

  /** Words joined by single spaces split back into the same words. */
  lemma WordsJoin(ws: seq<string>)
    requires forall i :: 0 <= i < |ws| ==> ws[i] != [] && NoSpace(ws[i])
    ensures Words(Join(" ", ws)) == ws
  {
    AllWordsIff(ws);
    WordsJoinAll(ws);
  }

  lemma {:induction false} TokenLengthOf(w: string, rest: string)
    requires NoSpace(w)
    requires rest == [] || IsSpace(rest[0])
    ensures TokenLength(w + rest) == |w| && (w + rest)[..|w|] == w
  {
    if w != [] {
      TailAppend(w, rest);
      TokenLengthOf(w[1..], rest);
    }
    DropSuffix(w, rest);
  }

  /** The characters of `s` that are not whitespace, in order. */
  function NonSpace(s: string): string {
    if s == [] then [] else (if IsSpace(s[0]) then [] else [s[0]]) + NonSpace(s[1..])
  }

  lemma {:induction false} NonSpaceAppend(a: string, b: string)
    ensures NonSpace(a + b) == NonSpace(a) + NonSpace(b)
  {
    if a != [] {
      TailAppend(a, b);
      NonSpaceAppend(a[1..], b);
      AppendAssoc(if IsSpace(a[0]) then [] else [a[0]], NonSpace(a[1..]), NonSpace(b));
    } else {
      assert a + b == b;
    }
  }

  lemma {:induction false} NonSpaceOfSpace(s: string)
    requires AllSpace(s)
    ensures NonSpace(s) == []
  {
    if s != [] {
      NonSpaceOfSpace(s[1..]);
    }
  }

  lemma {:induction false} NonSpaceOfWord(s: string)
    requires NoSpace(s)
    ensures NonSpace(s) == s
  {
    if s != [] {
      NonSpaceOfWord(s[1..]);
      assert [s[0]] + s[1..] == s;
    }
  }

  /** `s.split()` loses only whitespace: its words, glued together, are the
      non-whitespace characters of `s` in order. */
  lemma {:induction false} WordsKeepText(s: string)
    ensures Concat(Words(s)) == NonSpace(s)
    decreases |s|
  {
    var t := TrimLeft(s);
    LeadingSplit(s);
    NonSpaceAppend(LeadingSpace(s), t);
    NonSpaceOfSpace(LeadingSpace(s));
    if t == [] {
    } else {
      var n := TokenLength(t);
      var rest := t[n..];
      SplitAt(t, n);
      NonSpaceAppend(t[..n], rest);
      NonSpaceOfWord(t[..n]);
      WordsKeepText(rest);
      assert Words(s) == [t[..n]] + Words(rest);
      assert ([t[..n]] + Words(rest))[1..] == Words(rest);
    }
  }
}
