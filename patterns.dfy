/** `src/__init__.py`: the three regular expressions the list conversion
    uses, as predicates and a match function on one line of text. Every
    pattern is anchored with `^` at the start of the line; `$` in Python
    also matches just before a final line feed. Character classes are the
    ASCII ones. */
module Patterns {
  import opened Wrappers
  import opened Strings

  predicate IsLetter(c: char) {
    'a' <= c <= 'z' || 'A' <= c <= 'Z'
  }

  /** `[a-zA-Z0-9]` */
  predicate IsAlnum(c: char) {
    IsDigit(c) || IsLetter(c)
  }

  /** `[0-9a-fA-F:.]` */
  predicate IsHostChar(c: char) {
    IsDigit(c) || 'a' <= c <= 'f' || 'A' <= c <= 'F' || c == ':' || c == '.'
  }

  /** `s` less one final line feed, if it has one: a pattern anchored with
      `^` and `$` accepts `s` when its body accepts `s` or this. */
  function DropFinalLineFeed(s: string): (r: string)
    ensures |r| <= |s|
  {
    if s != [] && s[|s| - 1] == '\n' then s[..|s| - 1] else s
  }

  // ---------------------------------------------------------------------
  // ip_pattern: ^\d{1,3}\.\d{1,3}\.\d{1,3}\.\d{1,3}$

  /** `\d{1,3}` */
  predicate IsOctetText(p: string) {
    1 <= |p| <= 3 && AllDigits(p)
  }

  /** Between `^` and `$`: exactly four dot-separated groups of one to
      three digits. Digits are never dots, so the regex matches exactly when
      splitting at the dots gives four such groups. */
  predicate IpBody(s: string) {
    var g := Split(s, '.');
    |g| == 4 && IsOctetText(g[0]) && IsOctetText(g[1]) && IsOctetText(g[2]) && IsOctetText(g[3])
  }

  predicate IsIp(s: string) {
    IpBody(s) || IpBody(DropFinalLineFeed(s))
  }

  /** Four pieces without dots, joined by dots, are an address exactly when
      each piece is one to three digits. No range is checked. */
  lemma IpBodyJoin(g: seq<string>)
    requires |g| == 4 && forall i :: 0 <= i < 4 ==> '.' !in g[i]
    ensures IpBody(Join(".", g)) <==> forall i :: 0 <= i < 4 ==> IsOctetText(g[i])
  {
    SplitJoin(g, '.');
  }

  lemma JoinFour(a: string, b: string, c: string, d: string)
    ensures Join(".", [a, b, c, d]) == a + "." + b + "." + c + "." + d
  {
    var g := [a, b, c, d];
    assert g[1..] == [b, c, d] && g[1..][1..] == [c, d] && g[1..][1..][1..] == [d];
    assert Join(".", [c, d]) == c + "." + d;
    assert Join(".", [b, c, d]) == b + "." + (c + "." + d);
  }

  /** Four runs of digits joined by dots form an address exactly when each
      run has one to three digits. The runs are not read as numbers, so
      `999.999.999.999` passes while `1234.1.1.1` does not. */
  lemma IpDigits(a: string, b: string, c: string, d: string)
    requires AllDigits(a) && AllDigits(b) && AllDigits(c) && AllDigits(d)
    ensures IsIp(a + "." + b + "." + c + "." + d)
            <==> IsOctetText(a) && IsOctetText(b) && IsOctetText(c) && IsOctetText(d)
  {
    var g := [a, b, c, d];
    var s := a + "." + b + "." + c + "." + d;
    JoinFour(a, b, c, d);
    assert forall i :: 0 <= i < 4 ==> AllDigits(g[i]);
    assert forall i :: 0 <= i < 4 ==> '.' !in g[i] by {
      forall i | 0 <= i < 4
        ensures '.' !in g[i]
      {
        NoDotInDigits(g[i]);
      }
    }
    IpBodyJoin(g);
    assert g[0] == a && g[1] == b && g[2] == c && g[3] == d;
    assert (forall i :: 0 <= i < 4 ==> IsOctetText(g[i]))
           <==> IsOctetText(a) && IsOctetText(b) && IsOctetText(c) && IsOctetText(d);
    assert s[|s| - 1] == if d == [] then '.' else d[|d| - 1];
    assert DropFinalLineFeed(s) == s;
  }

  lemma NoDotInDigits(p: string)
    requires AllDigits(p)
    ensures '.' !in p && '\n' !in p
  {
  }

  // ---------------------------------------------------------------------
  // domain_pattern:
  //   ^([a-zA-Z0-9]([a-zA-Z0-9\-]*[a-zA-Z0-9])?\.?)+[a-zA-Z0-9]([a-zA-Z0-9\-]*[a-zA-Z0-9])?$

  /** `[a-zA-Z0-9]([a-zA-Z0-9\-]*[a-zA-Z0-9])?`: letters, digits and
      hyphens, first and last a letter or digit. */
  predicate IsLabel(s: string) {
    s != [] && IsAlnum(s[0]) && IsAlnum(s[|s| - 1])
    && forall i :: 0 <= i < |s| ==> IsAlnum(s[i]) || s[i] == '-'
  }

  /** The repeated group: a label with an optional dot after it. */
  predicate IsGroup(s: string) {
    IsLabel(s) || (s != [] && s[|s| - 1] == '.' && IsLabel(s[..|s| - 1]))
  }

  /** `( ... )+`: one or more groups in a row. */
  predicate Groups(s: string)
    decreases |s|
  {
    exists k :: 1 <= k <= |s| && IsGroup(s[..k]) && (k == |s| || Groups(s[k..]))
  }

  /** Between `^` and `$`: groups, then one more label. */
  predicate DomainBody(s: string) {
    exists j :: 1 <= j < |s| && Groups(s[..j]) && IsLabel(s[j..])
  }

  predicate IsDomain(s: string) {
    DomainBody(s) || DomainBody(DropFinalLineFeed(s))
  }

  predicate IsNameChar(c: char) {
    IsAlnum(c) || c == '-' || c == '.'
  }

  /** Neither `..`, `-.` nor `.-`. */
  predicate GoodPair(c: char, d: char) {
    !(c == '.' && d == '.') && !(c == '-' && d == '.') && !(c == '.' && d == '-')
  }

  /** Only name characters, and no two neighbours forming `..`, `-.` or
      `.-`. */
  ghost predicate NameShaped(s: string) {
    (forall i :: 0 <= i < |s| ==> IsNameChar(s[i]))
    && forall i, j :: 0 <= i < j < |s| && j == i + 1 ==> GoodPair(s[i], s[j])
  }

  /** Two well-shaped pieces stay well shaped when the second starts with a
      letter or digit. */
  lemma NameShapedAppend(a: string, b: string)
    requires NameShaped(a) && NameShaped(b) && b != [] && IsAlnum(b[0])
    ensures NameShaped(a + b)
  {
    var s := a + b;
    forall i, j | 0 <= i < j < |s| && j == i + 1
      ensures GoodPair(s[i], s[j])
    {
      if j < |a| {
        assert s[i] == a[i] && s[j] == a[j];
      } else if i >= |a| {
        assert s[i] == b[i - |a|] && s[j] == b[j - |a|];
      } else {
        assert s[j] == b[0];
      }
    }
  }

  lemma LabelShaped(s: string)
    requires IsLabel(s)
    ensures NameShaped(s)
  {
  }

  lemma GroupShaped(s: string)
    requires IsGroup(s)
    ensures NameShaped(s) && IsAlnum(s[0])
  {
    if !IsLabel(s) {
      var l := s[..|s| - 1];
      forall i, j | 0 <= i < j < |s| && j == i + 1
        ensures GoodPair(s[i], s[j])
      {
        if j < |l| {
          assert s[i] == l[i] && s[j] == l[j];
        } else {
          assert s[i] == l[|l| - 1];
        }
      }
    }
  }

  /** Groups start with a letter or digit and are well shaped. */
  lemma {:induction false} GroupsShaped(s: string)
    requires Groups(s)
    ensures s != [] && IsAlnum(s[0]) && NameShaped(s)
    decreases |s|
  {
    var k :| 1 <= k <= |s| && IsGroup(s[..k]) && (k == |s| || Groups(s[k..]));
    GroupShaped(s[..k]);
    if k < |s| {
      GroupsShaped(s[k..]);
      NameShapedAppend(s[..k], s[k..]);
      assert s == s[..k] + s[k..];
    } else {
      assert s[..k] == s;
    }
  }

  /** Every name `domain_pattern` accepts has at least two characters, only
      letters, digits, `-` and `.`, starts and ends with a letter or digit
      and never holds `..`, `-.` or `.-`. */
  lemma DomainSound(s: string)
    requires DomainBody(s)
    ensures |s| >= 2 && IsAlnum(s[0]) && IsAlnum(s[|s| - 1]) && NameShaped(s)
  {
    var j :| 1 <= j < |s| && Groups(s[..j]) && IsLabel(s[j..]);
    GroupsShaped(s[..j]);
    LabelShaped(s[j..]);
    NameShapedAppend(s[..j], s[j..]);
    assert s == s[..j] + s[j..];
  }

  /** What `domain_pattern` accepts as a whole: a name of the shape above,
      or such a name followed by one final line feed, which `$` lets
      through. */
  lemma DomainAccepted(s: string)
    requires IsDomain(s)
    ensures var t := DropFinalLineFeed(s);
            (t == s || s == t + "\n")
            && |t| >= 2 && IsAlnum(t[0]) && IsAlnum(t[|t| - 1]) && NameShaped(t)
  {
    var t := DropFinalLineFeed(s);
    if DomainBody(s) {
      DomainSound(s);
      assert t == s;
    } else {
      DomainSound(t);
      assert s == t + "\n";
    }
  }

  /** Two or more labels joined by dots are accepted. */
  lemma DomainJoin(labels: seq<string>)
    requires |labels| >= 2 && forall i :: 0 <= i < |labels| ==> IsLabel(labels[i])
    ensures DomainBody(Join(".", labels))
  {
    var n := |labels| - 1;
    var init := labels[..n];
    assert forall i :: 0 <= i < |init| ==> init[i] == labels[i];
    GroupsDotted(init);
    JoinSnoc(".", init, labels[n]);
    SnocLast(labels);
    var g := Join(".", init) + ".";
    var s := Join(".", labels);
    assert s == g + labels[n];
    assert s[..|g|] == g && s[|g|..] == labels[n];
  }

  /** Labels each followed by a dot are groups. */
  lemma {:induction false} GroupsDotted(labels: seq<string>)
    requires |labels| >= 1 && forall i :: 0 <= i < |labels| ==> IsLabel(labels[i])
    ensures Groups(Join(".", labels) + ".")
  {
    var s := Join(".", labels) + ".";
    var g := labels[0] + ".";
    assert g[..|g| - 1] == labels[0];
    if |labels| == 1 {
      assert s == g && s[..|s|] == g;
    } else {
      var tail := labels[1..];
      assert forall i :: 0 <= i < |tail| ==> tail[i] == labels[i + 1];
      GroupsDotted(tail);
      var rest := Join(".", tail) + ".";
      assert s == g + rest;
      assert s[..|g|] == g && s[|g|..] == rest;
    }
  }

  lemma TwoLettersAccepted()
    ensures IsDomain("ab")
  {
    var s := "ab";
    assert s[..1] == "a" && s[1..] == "b";
    assert "a"[..1] == "a";
    assert IsGroup("a");
    assert Groups(s[..1]);
    assert DomainBody(s);
  }

  lemma DottedAccepted()
    ensures IsDomain("a.b")
  {
    DomainJoin(["a", "b"]);
    assert Join(".", ["a", "b"]) == "a.b" by {
      assert Join(".", ["a", "b"][1..]) == "b";
    }
  }

  lemma OneLetterRejected()
    ensures !IsDomain("a")
  {
    assert "a"[..0] == [];
  }

  /** A hyphenated single label of three characters is refused: the last
      label cannot start with `-`, and `a-` is no group. */
  lemma HyphenRejected()
    ensures !IsDomain("a-b")
  {
    var s := "a-b";
    assert !IsLabel(s[1..]) by {
      assert s[1..][0] == '-';
    }
    assert !Groups(s[..2]) by {
      var t := s[..2];
      assert t == "a-";
      assert !IsGroup(t[..2]) by {
        assert t[..2] == t;
      }
      assert !Groups(t[1..]) by {
        assert t[1..] == "-";
        assert "-"[..1] == "-";
        assert !IsGroup("-"[..1]);
      }
    }
    assert s[|s| - 1] != '\n';
  }

  // ---------------------------------------------------------------------
  // replace_pattern: (^([0-9.]+|[0-9a-fA-F:.]+)\s+|^(\|\||@@\|\||\*\.|\*))

  predicate AllHostChars(s: string) {
    forall i :: 0 <= i < |s| ==> IsHostChar(s[i])
  }

  /** The length of the run of `[0-9a-fA-F:.]` that `s` starts with. */
  function HostRun(s: string): (n: nat)
    ensures n <= |s| && AllHostChars(s[..n])
    ensures n == |s| || !IsHostChar(s[n])
  {
    if s == [] || !IsHostChar(s[0]) then 0
    else
      var n := HostRun(s[1..]);
      assert s[..n + 1] == [s[0]] + s[1..][..n];
      n + 1
  }

  /** The markers of the second alternative, in the order they are tried. */
  const Markers: seq<string> := ["||", "@@||", "*.", "*"]

  /** The length of the text `replace_pattern` matches at the start of
      `line`, if it matches. The first alternative is an address (a run of
      `[0-9.]` or, failing that, of `[0-9a-fA-F:.]`, both greedy) and all the
      whitespace after it; since whitespace is in neither class, it matches
      exactly when the longest run of `[0-9a-fA-F:.]` is followed by
      whitespace, and then both branches match the same text. Otherwise the
      first marker the line starts with matches. */
  function ReplaceMatch(line: string): (r: Option<nat>)
    ensures r.Some? ==> 0 < r.value <= |line|
  {
    if AddressAhead(line) then Some(AddressMatch(line)) else MarkerMatch(line)
  }

  /** The address and all the whitespace after it. */
  function AddressMatch(line: string): (n: nat)
    requires AddressAhead(line)
    ensures HostRun(line) < n <= |line|
  {
    var h := HostRun(line);
    h + SpaceRun(line[h..])
  }

  /** The length of the run of whitespace `s` starts with. */
  function SpaceRun(s: string): (n: nat)
    ensures n <= |s| && AllSpace(s[..n])
    ensures n == |s| || !IsSpace(s[n])
  {
    var t := TrimLeft(s);
    assert t == [] || t[0] == s[|s| - |t|];
    |s| - |t|
  }

  /** The second alternative: `||`, `@@||`, `*.`, `*`, tried in order. */
  function MarkerMatch(line: string): (r: Option<nat>)
    ensures r.Some? ==> 0 < r.value <= |line|
  {
    if StartsWith(line, "||") then Some(2)
    else if StartsWith(line, "@@||") then Some(4)
    else if StartsWith(line, "*.") then Some(2)
    else if StartsWith(line, "*") then Some(1)
    else None
  }

  /** The line starts with a non-empty run of `[0-9a-fA-F:.]` followed by
      whitespace. */
  predicate AddressAhead(line: string) {
    var h := HostRun(line);
    0 < h < |line| && IsSpace(line[h])
  }

  /** A matched text: an address and whitespace, or one of the markers. */
  predicate AddressThenSpace(m: string) {
    var h := HostRun(m);
    0 < h < |m| && AllSpace(m[h..])
  }

  /** What matches is an address with all of the whitespace after it, or a
      marker. */
  lemma ReplaceMatchShape(line: string)
    requires ReplaceMatch(line).Some?
    ensures var n := ReplaceMatch(line).value;
            (AddressAhead(line) && AddressThenSpace(line[..n]) && (n == |line| || !IsSpace(line[n])))
            || (!AddressAhead(line) && line[..n] in Markers)
  {
    var n := ReplaceMatch(line).value;
    if AddressAhead(line) {
      var h := HostRun(line);
      var rest := line[h..];
      assert n == h + SpaceRun(rest);
      HostRunPrefix(line, n);
      assert line[..n][h..] == rest[..SpaceRun(rest)];
      if n < |line| {
        assert line[n] == rest[SpaceRun(rest)];
      }
    } else {
      assert line[..n] in Markers by {
        assert line[..n] == "||" || line[..n] == "@@||" || line[..n] == "*." || line[..n] == "*";
      }
    }
  }

  /** The address run of a longer prefix is the address run of the line. */
  lemma HostRunPrefix(line: string, n: nat)
    requires HostRun(line) < n <= |line|
    ensures HostRun(line[..n]) == HostRun(line)
  {
    var h := HostRun(line);
    PrefixSplit(line, h, n);
    assert line[h..n][0] == line[h];
    HostRunOf(line[..h], line[h..n]);
  }

  /** Nothing matches exactly when the line starts with no address followed
      by whitespace, and with none of `||`, `@@||` and `*`. */
  lemma ReplaceMatchNone(line: string)
    ensures ReplaceMatch(line).None?
            <==> !AddressAhead(line) && !StartsWith(line, "||") && !StartsWith(line, "@@||") && !StartsWith(line, "*")
  {
    if StartsWith(line, "*.") {
      assert line[..1] == line[..2][..1];
    }
  }

  /** An address, whitespace and the rest of a hosts-file line: the match is
      the address and all of the whitespace. */
  lemma {:induction false} ReplaceMatchAddress(address: string, spaces: string, rest: string)
    requires address != [] && AllHostChars(address)
    requires spaces != [] && AllSpace(spaces)
    requires rest == [] || !IsSpace(rest[0])
    ensures ReplaceMatch(address + spaces + rest) == Some(|address| + |spaces|)
  {
    AppendAssoc(address, spaces, rest);
    assert (spaces + rest)[0] == spaces[0];
    AddressMatchOf(address, spaces + rest);
    SpaceRunOf(spaces, rest);
  }

  lemma {:induction false} AddressMatchOf(address: string, tail: string)
    requires address != [] && AllHostChars(address)
    requires tail != [] && IsSpace(tail[0])
    ensures ReplaceMatch(address + tail) == Some(|address| + SpaceRun(tail))
  {
    AddressBefore(address, tail);
    AddressAheadMatch(address, tail);
  }

  lemma AddressAheadMatch(address: string, tail: string)
    requires AddressAhead(address + tail)
    requires HostRun(address + tail) == |address|
    requires (address + tail)[|address|..] == tail
    ensures ReplaceMatch(address + tail) == Some(|address| + SpaceRun(tail))
  {
  }

  lemma {:induction false} SpaceRunOf(spaces: string, rest: string)
    requires AllSpace(spaces)
    requires rest == [] || !IsSpace(rest[0])
    ensures SpaceRun(spaces + rest) == |spaces|
  {
    TrimLeftOf(spaces, rest);
  }

  /** An address directly followed by whitespace is seen as one. */
  lemma {:induction false} AddressBefore(address: string, tail: string)
    requires address != [] && AllHostChars(address)
    requires tail != [] && IsSpace(tail[0])
    ensures AddressAhead(address + tail)
    ensures HostRun(address + tail) == |address|
    ensures (address + tail)[|address|..] == tail
  {
    HostRunOf(address, tail);
    DropPrefix(address, tail);
    assert (address + tail)[|address|] == tail[0];
  }

  lemma {:induction false} HostRunOf(w: string, rest: string)
    requires AllHostChars(w)
    requires rest == [] || !IsHostChar(rest[0])
    ensures HostRun(w + rest) == |w|
  {
    if w != [] {
      TailAppend(w, rest);
      HostRunOf(w[1..], rest);
    }
  }

  lemma {:induction false} TrimLeftOf(spaces: string, rest: string)
    requires AllSpace(spaces)
    requires rest == [] || !IsSpace(rest[0])
    ensures TrimLeft(spaces + rest) == rest
  {
    var s := spaces + rest;
    if spaces == [] {
      assert s == rest;
    } else {
      TailAppend(spaces, rest);
      assert IsSpace(s[0]);
      assert TrimLeft(s) == TrimLeft(s[1..]);
      TrimLeftOf(spaces[1..], rest);
    }
  }

  /** `*.` is tried before `*`, and `*` is no address character. */
  lemma ReplaceMatchStarDot(line: string)
    requires StartsWith(line, "*.")
    ensures ReplaceMatch(line) == Some(2)
  {
    assert line[0] == '*';
    assert !StartsWith(line, "||") by {
      assert line[..2][0] == '*';
    }
    assert !StartsWith(line, "@@||") by {
      if 4 <= |line| {
        assert line[..4][0] == '*';
      }
    }
  }
}
