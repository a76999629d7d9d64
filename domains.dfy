/** The URL lists and the text handed to the domain converter: which URLs are
    read from a list file and from the environment, and how the downloaded
    texts and the dynamic lists are put together. The environment, the list
    files (as their text and as what the `.ini` parser made of them) and the
    downloads are given as values. */
module Domains {
  import opened Wrappers
  import opened Strings

  /** The keys of `env_file_map`: the environment variables that name a
      list. */
  datatype ListVar = AdlistUrls | WhitelistUrls | DynamicBlacklist | DynamicWhitelist

  /** The name of the variable. */
  function VarName(v: ListVar): string {
    match v
    case AdlistUrls => "ADLIST_URLS"
    case WhitelistUrls => "WHITELIST_URLS"
    case DynamicBlacklist => "DYNAMIC_BLACKLIST"
    case DynamicWhitelist => "DYNAMIC_WHITELIST"
  }

  /** `env_file_map`: the file read for each variable. */
  function FileFor(v: ListVar): string {
    match v
    case AdlistUrls => "./lists/adlist.ini"
    case WhitelistUrls => "./lists/whitelist.ini"
    case DynamicBlacklist => "./lists/dynamic_blacklist.txt"
    case DynamicWhitelist => "./lists/dynamic_whitelist.txt"
  }

  /** `os.getenv(name, "")` */
  function GetEnv(environ: map<string, string>, name: string): string {
    if name in environ then environ[name] else ""
  }

  // ---------------------------------------------------------------------
  // URLs from the environment

  /** `[u.strip() for u in parts if u.strip()]` */
  function StripAll(parts: seq<string>): (r: seq<string>)
    ensures |r| <= |parts|
  {
    if parts == [] then []
    else
      var u := Strip(parts[0]);
      (if u != [] then [u] else []) + StripAll(parts[1..])
  }

  /** `read_urls_from_env`: the stripped, non-empty whitespace-separated
      parts of the variable's value. */
  function EnvUrls(environ: map<string, string>, name: string): seq<string> {
    StripAll(Words(GetEnv(environ, name)))
  }

  lemma {:induction false} StripAllWords(ws: seq<string>)
    requires AllWords(ws)
    ensures StripAll(ws) == ws
  {
    if ws != [] {
      var w := ws[0];
      assert !IsSpace(w[0]) && !IsSpace(w[|w| - 1]);
      StripFixed(w);
      StripAllWords(ws[1..]);
      assert [w] + ws[1..] == ws;
    }
  }

  /** The environment URLs are the words of the value, in order. */
  lemma EnvUrlsAreWords(environ: map<string, string>, name: string)
    ensures EnvUrls(environ, name) == Words(GetEnv(environ, name))
  {
    StripAllWords(Words(GetEnv(environ, name)));
  }

  /** Each environment URL is non-empty and free of whitespace. */
  lemma EnvUrlsShape(environ: map<string, string>, name: string)
    ensures var urls := EnvUrls(environ, name);
            forall i :: 0 <= i < |urls| ==> urls[i] != [] && NoSpace(urls[i])
  {
    EnvUrlsAreWords(environ, name);
    AllWordsIff(EnvUrls(environ, name));
  }

  /** Together the environment URLs hold every non-whitespace character of
      the value, in order; an unset variable gives none. */
  lemma EnvUrlsKeepText(environ: map<string, string>, name: string)
    ensures Concat(EnvUrls(environ, name)) == NonSpace(GetEnv(environ, name))
    ensures name !in environ ==> EnvUrls(environ, name) == []
  {
    EnvUrlsAreWords(environ, name);
    WordsKeepText(GetEnv(environ, name));
  }

  /** URLs written into the variable separated by single spaces are read
      back as they were. */
  lemma EnvUrlsJoin(environ: map<string, string>, name: string, urls: seq<string>)
    requires forall i :: 0 <= i < |urls| ==> urls[i] != [] && NoSpace(urls[i])
    requires name in environ && environ[name] == Join(" ", urls)
    ensures EnvUrls(environ, name) == urls
  {
    WordsJoin(urls);
    AllWordsIff(urls);
    StripAllWords(urls);
  }

  // ---------------------------------------------------------------------
  // URLs from a list file read line by line

  /** The fallback keeps a line that does not start with `#` (looked at
      before stripping) and is not blank. */
  predicate KeptLine(line: string) {
    !StartsWith(line, "#") && Strip(line) != []
  }

  /** The fallback branch of `read_urls_from_file`: every kept line,
      stripped. */
  function FallbackUrls(lines: seq<string>): (r: seq<string>)
    ensures |r| <= |lines|
  {
    if lines == [] then []
    else (if KeptLine(lines[0]) then [Strip(lines[0])] else []) + FallbackUrls(lines[1..])
  }

  /** The fallback looks at each line on its own: the URLs of two runs of
      lines are those of the first run followed by those of the second. */
  lemma {:induction false} FallbackAppend(a: seq<string>, b: seq<string>)
    ensures FallbackUrls(a + b) == FallbackUrls(a) + FallbackUrls(b)
  {
    if a == [] {
      assert a + b == b;
    } else {
      TailAppend(a, b);
      FallbackAppend(a[1..], b);
      AppendAssoc(if KeptLine(a[0]) then [Strip(a[0])] else [], FallbackUrls(a[1..]), FallbackUrls(b));
    }
  }

  /** A single line gives nothing when it is a comment or blank, and its
      stripped text otherwise; what it gives has no surrounding whitespace. */
  lemma FallbackLine(line: string)
    ensures FallbackUrls([line]) == [] <==> StartsWith(line, "#") || AllSpace(line)
    ensures FallbackUrls([line]) != [] ==> FallbackUrls([line]) == [Strip(line)]
    ensures forall u :: u in FallbackUrls([line]) ==> u != [] && Strip(u) == u
  {
    assert [line][1..] == [];
    var u := Strip(line);
    if u != [] {
      StripIdempotent(line);
    }
  }

  /** The comment test comes before stripping: an indented line is kept
      even when its text starts with `#`. */
  lemma FallbackIndented(line: string)
    requires line != [] && IsSpace(line[0]) && !AllSpace(line)
    ensures FallbackUrls([line]) == [Strip(line)]
  {
    assert [line][1..] == [];
    assert line[..1] != "#";
  }

  // ---------------------------------------------------------------------
  // URLs from a parsed `.ini` list file

  /** One option of a section as the `.ini` parser gives it: its key, and
      what `config.get(section, key)` returns, `None` where that raises. */
  datatype ConfigOption = ConfigOption(key: string, value: Option<string>)

  datatype Section = Section(name: string, options: seq<ConfigOption>)

  /** A list file: what the `.ini` parser made of it (`None` when reading it
      raised), and its text for the line-by-line fallback. */
  datatype ListFile = ListFile(parsed: Option<seq<Section>>, text: string)

  /** The options of all sections, section by section. */
  function AllOptions(sections: seq<Section>): seq<ConfigOption> {
    if sections == [] then []
    else AllOptions(sections[..|sections| - 1]) + sections[|sections| - 1].options
  }

  /** An option whose key is not a comment but whose value cannot be read. */
  predicate Fails(o: ConfigOption) {
    !StartsWith(o.key, "#") && o.value.None?
  }

  /** The values of the options in order, skipping keys that start with
      `#`; `None` once a value cannot be read. */
  function OptionUrls(opts: seq<ConfigOption>): Option<seq<string>> {
    if opts == [] then Some([])
    else
      var o := opts[|opts| - 1];
      match OptionUrls(opts[..|opts| - 1])
      case None => None
      case Some(urls) =>
        if StartsWith(o.key, "#") then Some(urls)
        else if o.value.None? then None
        else Some(urls + [o.value.value])
  }

  /** `read_urls_from_file`: the URLs of the parsed file, or the fallback
      over its lines when parsing or reading a value raised. */
  function FileUrls(file: ListFile): seq<string> {
    match file.parsed
    case None => FallbackUrls(Lines(file.text))
    case Some(sections) =>
      match OptionUrls(AllOptions(sections))
      case Some(urls) => urls
      case None => FallbackUrls(Lines(file.text))
  }

  /** The parsed options give up exactly when one of them fails. */
  lemma {:induction false} OptionUrlsFail(opts: seq<ConfigOption>)
    ensures OptionUrls(opts).None? <==> exists i :: 0 <= i < |opts| && Fails(opts[i])
  {
    if opts != [] {
      var init := opts[..|opts| - 1];
      OptionUrlsFail(init);
      if OptionUrls(init).None? {
        var i :| 0 <= i < |init| && Fails(init[i]);
        assert opts[i] == init[i];
      } else if OptionUrls(opts).Some? {
        forall i | 0 <= i < |opts|
          ensures !Fails(opts[i])
        {
          if i < |init| {
            assert opts[i] == init[i];
          }
        }
      }
    }
  }

  /** The options whose key is not a comment, in order: the reference the
      URLs of a readable file are read against. */
  function Uncommented(opts: seq<ConfigOption>): (kept: seq<ConfigOption>)
    ensures |kept| <= |opts|
  {
    if opts == [] then []
    else Kept(opts[0]) + Uncommented(opts[1..])
  }

  /** The option itself unless its key is a comment. */
  function Kept(o: ConfigOption): seq<ConfigOption> {
    if StartsWith(o.key, "#") then [] else [o]
  }

  /** Exactly the options whose key is not a comment are kept. */
  lemma {:induction false} UncommentedMembers(opts: seq<ConfigOption>, o: ConfigOption)
    ensures o in Uncommented(opts) <==> o in opts && !StartsWith(o.key, "#")
  {
    if opts != [] {
      UncommentedMembers(opts[1..], o);
      assert o in opts <==> o == opts[0] || o in opts[1..];
    }
  }

  lemma {:induction false} UncommentedSnoc(opts: seq<ConfigOption>, o: ConfigOption)
    ensures Uncommented(opts + [o]) == Uncommented(opts) + Kept(o)
  {
    if opts == [] {
      assert opts + [o] == [o];
      assert Uncommented([o]) == Kept(o) + [];
    } else {
      var rest := opts[1..];
      assert (opts + [o])[0] == opts[0] && (opts + [o])[1..] == rest + [o];
      UncommentedSnoc(rest, o);
      assert Uncommented(opts + [o]) == Kept(opts[0]) + (Uncommented(rest) + Kept(o));
    }
  }

  /** When every value of a non-comment key can be read, the URLs are the
      values of the non-comment options, in order. */
  lemma {:induction false} OptionUrlsValues(opts: seq<ConfigOption>)
    requires forall i :: 0 <= i < |opts| ==> !Fails(opts[i])
    ensures OptionUrls(opts).Some?
    ensures var urls := OptionUrls(opts).value;
            var kept := Uncommented(opts);
            |urls| == |kept|
            && forall i :: 0 <= i < |kept| ==> kept[i].value.Some? && urls[i] == kept[i].value.value
  {
    if opts != [] {
      var init := opts[..|opts| - 1];
      var last := opts[|init|];
      assert init + [last] == opts;
      assert forall i :: 0 <= i < |init| ==> init[i] == opts[i];
      OptionUrlsValues(init);
      UncommentedSnoc(init, last);
      assert !Fails(last);
    }
  }

  /** Once a prefix of the options fails, so does the whole. */
  lemma {:induction false} OptionUrlsSticky(a: seq<ConfigOption>, b: seq<ConfigOption>)
    requires OptionUrls(a).None?
    ensures OptionUrls(a + b).None?
    decreases |b|
  {
    if b == [] {
      assert a + b == a;
    } else {
      var init := b[..|b| - 1];
      OptionUrlsSticky(a, init);
      assert (a + b)[..|a + b| - 1] == a + init;
    }
  }

  lemma {:induction false} AllOptionsAppend(a: seq<Section>, b: seq<Section>)
    ensures AllOptions(a + b) == AllOptions(a) + AllOptions(b)
    decreases |b|
  {
    if b == [] {
      assert a + b == a;
    } else {
      var init := b[..|b| - 1];
      assert (a + b)[..|a + b| - 1] == a + init;
      assert (a + b)[|a + b| - 1] == b[|b| - 1];
      AllOptionsAppend(a, init);
      AppendAssoc(AllOptions(a), AllOptions(init), b[|b| - 1].options);
    }
  }

  /** The options read so far, up to option `j` of section `i`, followed by
      the others. */
  lemma OptionsPrefix(sections: seq<Section>, i: nat, j: nat)
    requires i < |sections| && j <= |sections[i].options|
    ensures AllOptions(sections)
            == AllOptions(sections[..i]) + sections[i].options[..j]
               + (sections[i].options[j..] + AllOptions(sections[i + 1..]))
  {
    var opts := sections[i].options;
    var head := sections[..i + 1];
    assert head[..i] == sections[..i];
    assert sections == head + sections[i + 1..];
    AllOptionsAppend(head, sections[i + 1..]);
    SplitAt(opts, j);
    AppendAssoc(AllOptions(sections[..i]), opts, AllOptions(sections[i + 1..]));
    AppendAssoc(AllOptions(sections[..i]) + opts[..j], opts[j..], AllOptions(sections[i + 1..]));
    AppendAssoc(AllOptions(sections[..i]), opts[..j], opts[j..]);
  }

  /** A value that cannot be read, anywhere, spoils the whole file. */
  lemma FailureSpreads(sections: seq<Section>, i: nat, j: nat)
    requires i < |sections| && j <= |sections[i].options|
    requires OptionUrls(AllOptions(sections[..i]) + sections[i].options[..j]).None?
    ensures OptionUrls(AllOptions(sections)).None?
  {
    OptionsPrefix(sections, i, j);
    OptionUrlsSticky(AllOptions(sections[..i]) + sections[i].options[..j],
                     sections[i].options[j..] + AllOptions(sections[i + 1..]));
  }

  /** Reading one more option. */
  lemma OptionUrlsNext(p: seq<ConfigOption>, opts: seq<ConfigOption>, j: nat)
    requires j < |opts|
    requires OptionUrls(p + opts[..j]).Some?
    ensures var before := OptionUrls(p + opts[..j]).value;
            var o := opts[j];
            OptionUrls(p + opts[..j + 1])
            == if StartsWith(o.key, "#") then Some(before)
               else if o.value.None? then None
               else Some(before + [o.value.value])
  {
    var q := p + opts[..j + 1];
    assert q[..|q| - 1] == p + opts[..j];
    assert q[|q| - 1] == opts[j];
  }

  /** Reading one more section. */
  lemma AllOptionsNext(sections: seq<Section>, i: nat)
    requires i < |sections|
    ensures AllOptions(sections[..i + 1]) == AllOptions(sections[..i]) + sections[i].options
  {
    assert sections[..i + 1][..i] == sections[..i];
  }

  /** `read_urls_from_file`: walks the sections and their options, appending
      each value whose key is not a comment; a value that cannot be read
      abandons them for the line-by-line reading of the file. */
  method ReadUrlsFromFile(file: ListFile) returns (urls: seq<string>)
    ensures urls == FileUrls(file)
  {
    urls := [];
    if file.parsed.None? {
      urls := FallbackUrls(Lines(file.text));
      return;
    }
    var sections := file.parsed.value;
    var i := 0;
    while i < |sections|
      invariant 0 <= i <= |sections|
      invariant OptionUrls(AllOptions(sections[..i])) == Some(urls)
    {
      var opts := sections[i].options;
      var j := 0;
      assert AllOptions(sections[..i]) + opts[..0] == AllOptions(sections[..i]);
      while j < |opts|
        invariant 0 <= j <= |opts|
        invariant OptionUrls(AllOptions(sections[..i]) + opts[..j]) == Some(urls)
      {
        var o := opts[j];
        OptionUrlsNext(AllOptions(sections[..i]), opts, j);
        if !StartsWith(o.key, "#") {
          if o.value.None? {
            FailureSpreads(sections, i, j + 1);
            urls := FallbackUrls(Lines(file.text));
            return;
          }
          urls := urls + [o.value.value];
        }
        j := j + 1;
      }
      AllOptionsNext(sections, i);
      assert opts[..j] == opts;
      i := i + 1;
    }
    assert sections[..i] == sections;
  }

  // ---------------------------------------------------------------------
  // Both sources of a list

  /** The list file behind a path; a missing file reads as an `.ini` file
      without sections, since the parser skips files it cannot open. */
  function FileAt(files: map<string, ListFile>, path: string): ListFile {
    if path in files then files[path] else ListFile(Some([]), "")
  }

  /** `read_urls`: the URLs of the variable's list file followed by those of
      the variable itself. */
  function ListUrls(v: ListVar, environ: map<string, string>, files: map<string, ListFile>): seq<string> {
    FileUrls(FileAt(files, FileFor(v))) + EnvUrls(environ, VarName(v))
  }

  /** `read_urls` */
  method ReadUrls(v: ListVar, environ: map<string, string>, files: map<string, ListFile>)
    returns (urls: seq<string>)
    ensures urls == ListUrls(v, environ, files)
  {
    var filePath := FileFor(v);
    urls := ReadUrlsFromFile(FileAt(files, filePath));
    urls := urls + EnvUrls(environ, VarName(v));
  }

  /** When the variable lists URLs separated by spaces, the list is the
      file's URLs followed by exactly those. */
  lemma ListUrlsOrder(v: ListVar, environ: map<string, string>, files: map<string, ListFile>,
                      fromEnv: seq<string>)
    requires forall i :: 0 <= i < |fromEnv| ==> fromEnv[i] != [] && NoSpace(fromEnv[i])
    requires VarName(v) in environ && environ[VarName(v)] == Join(" ", fromEnv)
    ensures ListUrls(v, environ, files) == FileUrls(FileAt(files, FileFor(v))) + fromEnv
  {
    EnvUrlsJoin(environ, VarName(v), fromEnv);
  }

  // ---------------------------------------------------------------------
  // The text handed to the domain converter

  /** The downloaded text of each URL, in order. */
  function Fetched(download: string -> string, urls: seq<string>): (r: seq<string>) {
    seq(|urls|, i requires 0 <= i < |urls| => download(urls[i]))
  }

  /** The downloads glued together in URL order. */
  function Downloaded(download: string -> string, urls: seq<string>): string {
    Concat(Fetched(download, urls))
  }

  /** Downloading two runs of URLs gives the texts of the first run
      followed by those of the second. */
  lemma DownloadedAppend(download: string -> string, a: seq<string>, b: seq<string>)
    ensures Downloaded(download, a + b) == Downloaded(download, a) + Downloaded(download, b)
  {
    assert Fetched(download, a + b) == Fetched(download, a) + Fetched(download, b);
    ConcatAppend(Fetched(download, a), Fetched(download, b));
  }

  lemma DownloadedOne(download: string -> string, url: string)
    ensures Downloaded(download, [url]) == download(url)
  {
    assert Fetched(download, [url]) == [download(url)];
  }

  /** The dynamic addendum of a list: the variable's value when it is set
      and non-empty, the text of its file otherwise; `None` when that file
      is needed but missing. */
  function Dynamic(v: ListVar, environ: map<string, string>, texts: map<string, string>): Option<string> {
    var value := GetEnv(environ, VarName(v));
    if value != "" then Some(value)
    else if FileFor(v) in texts then Some(texts[FileFor(v)])
    else None
  }

  /** A non-empty value replaces the file rather than adding to it: which
      files exist, and what they hold, no longer matters. */
  lemma DynamicReplacesFile(v: ListVar, environ: map<string, string>, texts: map<string, string>, others: map<string, string>)
    requires GetEnv(environ, VarName(v)) != ""
    ensures Dynamic(v, environ, texts) == Dynamic(v, environ, others) == Some(GetEnv(environ, VarName(v)))
  {
  }

  /** What `process_urls` hands to the converter: the block text and the
      allow text. */
  datatype Content = Content(block: string, white: string)

  /** The converter holds the two URL lists, read once when it is made. */
  class DomainConverter {
    const adlistUrls: seq<string>
    const whitelistUrls: seq<string>

    /** Reads the two URL lists. */
    constructor (environ: map<string, string>, files: map<string, ListFile>)
      ensures adlistUrls == ListUrls(AdlistUrls, environ, files)
      ensures whitelistUrls == ListUrls(WhitelistUrls, environ, files)
    {
      var adlist := ReadUrls(AdlistUrls, environ, files);
      var whitelist := ReadUrls(WhitelistUrls, environ, files);
      adlistUrls := adlist;
      whitelistUrls := whitelist;
    }

    /** `process_urls` up to the call of the converter: the downloads of
        each list in URL order, each followed by its dynamic addendum;
        `None` when the dynamic block file is needed and missing, or the
        block addendum is there and the allow file is needed and missing. */
    method ProcessUrls(download: string -> string, environ: map<string, string>, texts: map<string, string>)
      returns (r: Option<Content>)
      ensures r.Some? <==> Dynamic(DynamicBlacklist, environ, texts).Some?
                           && Dynamic(DynamicWhitelist, environ, texts).Some?
      ensures r.Some? ==>
                r.value.block == Downloaded(download, adlistUrls) + Dynamic(DynamicBlacklist, environ, texts).value
                && r.value.white == Downloaded(download, whitelistUrls) + Dynamic(DynamicWhitelist, environ, texts).value
    {
      var block := "";
      var white := "";
      for i := 0 to |adlistUrls|
        invariant block == Downloaded(download, adlistUrls[..i])
      {
        DownloadedStep(download, adlistUrls, i);
        block := block + download(adlistUrls[i]);
      }
      for i := 0 to |whitelistUrls|
        invariant white == Downloaded(download, whitelistUrls[..i])
      {
        DownloadedStep(download, whitelistUrls, i);
        white := white + download(whitelistUrls[i]);
      }
      assert adlistUrls[..|adlistUrls|] == adlistUrls;
      assert whitelistUrls[..|whitelistUrls|] == whitelistUrls;

      var dynamicBlacklist := GetEnv(environ, VarName(DynamicBlacklist));
      var dynamicWhitelist := GetEnv(environ, VarName(DynamicWhitelist));
      if dynamicBlacklist != "" {
        block := block + dynamicBlacklist;
      } else {
        var path := FileFor(DynamicBlacklist);
        if path !in texts {
          return None;
        }
        block := block + texts[path];
      }
      if dynamicWhitelist != "" {
        white := white + dynamicWhitelist;
      } else {
        var path := FileFor(DynamicWhitelist);
        if path !in texts {
          return None;
        }
        white := white + texts[path];
      }
      return Some(Content(block, white));
    }
  }

  lemma DownloadedStep(download: string -> string, urls: seq<string>, i: nat)
    requires i < |urls|
    ensures Downloaded(download, urls[..i + 1]) == Downloaded(download, urls[..i]) + download(urls[i])
  {
    assert urls[..i + 1] == urls[..i] + [urls[i]];
    DownloadedAppend(download, urls[..i], [urls[i]]);
    DownloadedOne(download, urls[i]);
  }
}
