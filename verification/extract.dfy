/**
 * `Domain.extract`: every white-space separated section of a text (or of
 * each line of an iterable) is read as a URL when it holds `://` and has a
 * host name, parsed as a domain, and kept when it is valid. A section whose
 * validity raises aborts the whole extraction.
 */
module Extraction {
  import opened Wrappers
  import opened Text
  import opened Codecs
  import opened Tables
  import opened Domains

  /** What `extract` can be given: a unicode text, an iterable of lines, or anything else. */
  datatype Input = OneText(text: string) | Lines(lines: seq<string>) | Other

  /** The text a section is parsed as: the host name of a URL, or the section itself. */
  function Candidate(p: Platform, section: string): (r: string)
    ensures !Contains(section, "://") ==> r == section
    ensures r == section || (Contains(section, "://") && p.urlHostname(section) == Some(r))
    ensures Contains(section, "://") && p.urlHostname(section).Some? ==> r == p.urlHostname(section).value
  {
    if Contains(section, "://") && p.urlHostname(section).Some? then p.urlHostname(section).value
    else section
  }

  /** The domain a section stands for. */
  function Found(p: Platform, section: string): Domain {
    Parse(p, Candidate(p, section))
  }

  /** Whether the domain of a section is valid (or raises). */
  function Keeps(p: Platform, section: string): Result<bool> {
    Valid(p, Found(p, section).parts)
  }

  /** `re.split(r'\s+', line.strip())`. */
  function Sections(line: string): seq<string> {
    SplitOnSpaceRuns(Strip(line, IsUnicodeSpace))
  }

  /** `f` applied to each element of `xs`, the resulting lists concatenated in order. */
  function FlatMap<A, B>(f: A -> seq<B>, xs: seq<A>): seq<B> {
    if xs == [] then [] else FlatMap(f, xs[..|xs| - 1]) + f(xs[|xs| - 1])
  }

  /** The sections of each line, in order. */
  function AllSections(lines: seq<string>): seq<string> {
    FlatMap(Sections, lines)
  }

  /** The sections `extract` visits. */
  function InputSections(data: Input): seq<string> {
    match data
    case OneText(text) => Sections(text)
    case Lines(lines) => AllSections(lines)
    case Other => []
  }

  /**
   * `f(x)` for each `x` of `xs` that `keep` accepts, in order; the first `x`
   * on which `keep` raises makes the result that error.
   */
  function KeepWhere<A, B>(f: A -> B, keep: A -> Result<bool>, xs: seq<A>): Result<seq<B>> {
    if xs == [] then Success([])
    else
      var kept :- KeepWhere(f, keep, xs[..|xs| - 1]);
      var last := xs[|xs| - 1];
      var ok :- keep(last);
      Success(if ok then kept + [f(last)] else kept)
  }

  /** The domains of the valid sections, in order, or the error of the first section that raises. */
  function KeepValid(p: Platform, sections: seq<string>): Result<seq<Domain>> {
    KeepWhere(Finder(p), Judge(p), sections)
  }

  function Finder(p: Platform): string -> Domain {
    s => Found(p, s)
  }

  function Judge(p: Platform): string -> Result<bool> {
    s => Keeps(p, s)
  }

  /** Keeping over a list extended by one element. */
  lemma KeepWhereSnoc<A, B>(f: A -> B, keep: A -> Result<bool>, xs: seq<A>, x: A)
    ensures KeepWhere(f, keep, xs + [x]) ==
      match KeepWhere(f, keep, xs)
      case Failure(e) => Failure(e)
      case Success(kept) =>
        match keep(x)
        case Failure(e) => Failure(e)
        case Success(ok) => Success(if ok then kept + [f(x)] else kept)
  {
    assert (xs + [x])[..|xs + [x]| - 1] == xs;
  }

  /** Once a prefix raises, the longer list raises the same error. */
  lemma {:induction false} KeepWherePrefixFailure<A, B>(
    f: A -> B, keep: A -> Result<bool>, a: seq<A>, b: seq<A>)
    requires KeepWhere(f, keep, a).Failure?
    ensures KeepWhere(f, keep, a + b) == KeepWhere(f, keep, a)
    decreases |b|
  {
    if b != [] {
      var b' := b[..|b| - 1];
      KeepWherePrefixFailure(f, keep, a, b');
      assert (a + b)[..|a + b| - 1] == a + b';
    } else {
      assert a + b == a;
    }
  }

  /** How a prefix of `s` grows by one element, and how it and the rest make up `s`. */
  lemma Prefixes<T>(a: seq<T>, s: seq<T>, j: nat)
    requires j < |s|
    ensures a + s[..j + 1] == (a + s[..j]) + [s[j]]
    ensures (a + s[..j + 1]) + s[j + 1..] == a + s
    ensures s[..j + 1] == s[..j] + [s[j]] && (s[..j] + [s[j]]) + s[j + 1..] == s
  {
  }

  /** The empty and the whole prefix. */
  lemma Ends<T>(a: seq<T>, s: seq<T>)
    ensures a + s[..0] == a && s[..|s|] == s && [] + s == s
  {
  }

  /** One pass of the loop of `parse_string`: the section's domain and whether it is valid. */
  method ParseSection(p: Platform, section: string) returns (d: Domain, valid: Result<bool>)
    ensures d == Finder(p)(section) && valid == Judge(p)(section)
  {
    var host := section;
    if Contains(section, "://") {
      var hostname := p.urlHostname(section);
      if hostname.Some? {
        host := hostname.value;
      }
    }
    d := Parse(p, host);
    valid := Valid(p, d.parts);
  }

  /**
   * The `for` loop of `parse_string`: the domains of the valid sections are
   * appended to `result`, which holds those kept from the sections before.
   */
  method KeepSections(p: Platform, sections: seq<string>, result: seq<Domain>, ghost before: seq<string>)
    returns (r: Result<seq<Domain>>)
    requires KeepValid(p, before) == Success(result)
    ensures r == KeepValid(p, before + sections)
  {
    var kept := result;
    var j := 0;
    ghost var done := before;
    Ends(before, sections);
    while j < |sections|
      invariant 0 <= j <= |sections|
      invariant done == before + sections[..j]
      invariant KeepWhere(Finder(p), Judge(p), done) == Success(kept)
    {
      var d, valid := ParseSection(p, sections[j]);
      KeepWhereSnoc(Finder(p), Judge(p), done, sections[j]);
      Prefixes(before, sections, j);
      if valid.Failure? {
        r := Failure(valid.error);
        KeepWherePrefixFailure(Finder(p), Judge(p), done + [sections[j]], sections[j + 1..]);
        return;
      }
      if valid.value {
        kept := kept + [d];
      }
      done := done + [sections[j]];
      j := j + 1;
    }
    r := Success(kept);
  }

  /** `parse_string`: the sections of one line, kept after those before them. */
  method ParseString(p: Platform, line: string, result: seq<Domain>, ghost before: seq<string>)
    returns (r: Result<seq<Domain>>)
    requires KeepValid(p, before) == Success(result)
    ensures r == KeepValid(p, before + Sections(line))
  {
    var sections := Sections(line);
    r := KeepSections(p, sections, result, before);
  }

  /** Mapping a list extended by one element. */
  lemma FlatMapSnoc<A, B>(f: A -> seq<B>, xs: seq<A>, x: A)
    ensures FlatMap(f, xs + [x]) == FlatMap(f, xs) + f(x)
  {
    assert (xs + [x])[..|xs + [x]| - 1] == xs;
  }

  /** Mapping a concatenation is concatenating the mappings. */
  lemma {:induction false} FlatMapAppend<A, B>(f: A -> seq<B>, a: seq<A>, b: seq<A>)
    ensures FlatMap(f, a + b) == FlatMap(f, a) + FlatMap(f, b)
    decreases |b|
  {
    if b != [] {
      var b' := b[..|b| - 1];
      FlatMapAppend(f, a, b');
      assert (a + b)[..|a + b| - 1] == a + b';
    } else {
      assert a + b == a;
    }
  }

  /** `Domain.extract(data)`. */
  method Extract(p: Platform, data: Input) returns (r: Result<seq<Domain>>)
    ensures r == KeepValid(p, InputSections(data))
  {
    match data
    case OneText(text) =>
      r := ParseString(p, text, [], []);
      Ends([], Sections(text));
    case Lines(lines) =>
      var result: seq<Domain> := [];
      ghost var seen: seq<string> := [];
      ghost var done: seq<string> := [];
      var i := 0;
      Ends([], lines);
      while i < |lines|
        invariant 0 <= i <= |lines|
        invariant seen == lines[..i]
        invariant done == FlatMap(Sections, seen)
        invariant KeepValid(p, done) == Success(result)
      {
        var res := ParseString(p, lines[i], result, done);
        FlatMapSnoc(Sections, seen, lines[i]);
        Prefixes([], lines, i);
        if res.Failure? {
          r := res;
          FlatMapAppend(Sections, seen + [lines[i]], lines[i + 1..]);
          KeepWherePrefixFailure(Finder(p), Judge(p), done + Sections(lines[i]), FlatMap(Sections, lines[i + 1..]));
          return;
        }
        result := res.value;
        done := done + Sections(lines[i]);
        seen := seen + [lines[i]];
        i := i + 1;
      }
      r := Success(result);
    case Other =>
      r := Success([]);
  }

  /** Keeping over two lists is keeping over each, concatenated; it raises when either raises. */
  lemma {:induction false} KeepWhereAppend<A, B>(
    f: A -> B, keep: A -> Result<bool>, a: seq<A>, b: seq<A>)
    ensures KeepWhere(f, keep, a + b).Success? <==>
      KeepWhere(f, keep, a).Success? && KeepWhere(f, keep, b).Success?
    ensures KeepWhere(f, keep, a + b).Success? ==>
      KeepWhere(f, keep, a + b).value == KeepWhere(f, keep, a).value + KeepWhere(f, keep, b).value
    decreases |b|
  {
    if b == [] {
      assert a + b == a;
    } else {
      var b' := b[..|b| - 1];
      KeepWhereAppend(f, keep, a, b');
      assert (a + b)[..|a + b| - 1] == a + b';
      if KeepWhere(f, keep, a).Failure? {
        KeepWherePrefixFailure(f, keep, a, b);
      }
    }
  }

  /** Keeping raises exactly when `keep` raises on some element, and with that element's error. */
  lemma {:induction false} KeepWhereFails<A, B>(f: A -> B, keep: A -> Result<bool>, xs: seq<A>)
    ensures KeepWhere(f, keep, xs).Failure? <==> exists i :: 0 <= i < |xs| && keep(xs[i]).Failure?
    ensures KeepWhere(f, keep, xs).Failure? ==>
      exists i :: 0 <= i < |xs| && keep(xs[i]) == Failure(KeepWhere(f, keep, xs).error)
    decreases |xs|
  {
    if xs != [] {
      var n := |xs|;
      var init := xs[..n - 1];
      KeepWhereFails(f, keep, init);
      if KeepWhere(f, keep, init).Failure? {
        var i :| 0 <= i < |init| && keep(init[i]) == Failure(KeepWhere(f, keep, init).error);
        assert xs[i] == init[i];
      }
      if exists i :: 0 <= i < n && keep(xs[i]).Failure? {
        var i :| 0 <= i < n && keep(xs[i]).Failure?;
        if i < n - 1 { assert init[i] == xs[i]; }
      }
    }
  }

  /** Everything kept is `f` of an element that `keep` accepts. */
  lemma {:induction false} KeepWhereSound<A, B>(f: A -> B, keep: A -> Result<bool>, xs: seq<A>)
    requires KeepWhere(f, keep, xs).Success?
    ensures forall y :: y in KeepWhere(f, keep, xs).value ==>
      exists i :: 0 <= i < |xs| && y == f(xs[i]) && keep(xs[i]) == Success(true)
    decreases |xs|
  {
    if xs != [] {
      var n := |xs|;
      var init := xs[..n - 1];
      KeepWhereSound(f, keep, init);
      forall y | y in KeepWhere(f, keep, xs).value
        ensures exists i :: 0 <= i < n && y == f(xs[i]) && keep(xs[i]) == Success(true)
      {
        if y in KeepWhere(f, keep, init).value {
          var i :| 0 <= i < |init| && y == f(init[i]) && keep(init[i]) == Success(true);
          assert xs[i] == init[i];
        } else {
          assert y == f(xs[n - 1]) && keep(xs[n - 1]) == Success(true);
        }
      }
    }
  }

  /** Every element that `keep` accepts has its image kept. */
  lemma {:induction false} KeepWhereComplete<A, B>(f: A -> B, keep: A -> Result<bool>, xs: seq<A>)
    requires KeepWhere(f, keep, xs).Success?
    ensures forall i :: 0 <= i < |xs| && keep(xs[i]) == Success(true) ==>
      f(xs[i]) in KeepWhere(f, keep, xs).value
    decreases |xs|
  {
    if xs != [] {
      var n := |xs|;
      var init := xs[..n - 1];
      KeepWhereComplete(f, keep, init);
      forall i | 0 <= i < n && keep(xs[i]) == Success(true)
        ensures f(xs[i]) in KeepWhere(f, keep, xs).value
      {
        if i < n - 1 { assert xs[i] == init[i]; }
      }
    }
  }

  /**
   * Extraction raises exactly when the validity of some section's domain
   * raises, always with `AttributeError`; otherwise it returns the domains of
   * exactly the valid sections.
   */
  lemma ExtractOutcome(p: Platform, sections: seq<string>)
    ensures KeepValid(p, sections).Failure? <==>
      exists i :: 0 <= i < |sections| && Keeps(p, sections[i]).Failure?
    ensures KeepValid(p, sections).Failure? ==> KeepValid(p, sections).error == AttributeError
    ensures KeepValid(p, sections).Success? ==>
      && (forall d :: d in KeepValid(p, sections).value ==>
            Valid(p, d.parts) == Success(true)
            && exists i :: 0 <= i < |sections| && d == Found(p, sections[i]))
      && (forall i :: 0 <= i < |sections| && Keeps(p, sections[i]) == Success(true) ==>
            Found(p, sections[i]) in KeepValid(p, sections).value)
  {
    var f, keep := Finder(p), Judge(p);
    KeepWhereFails(f, keep, sections);
    if KeepValid(p, sections).Success? {
      KeepWhereSound(f, keep, sections);
      KeepWhereComplete(f, keep, sections);
    }
  }

  /**
   * When the stripped line is not blank, no section is empty and none holds
   * white space; a blank line gives the single empty section.
   */
  lemma SectionsShape(line: string)
    ensures forall i :: 0 <= i < |Sections(line)| ==> !Has(Sections(line)[i], ' ')
    ensures Strip(line, IsUnicodeSpace) == [] ==> Sections(line) == [""]
    ensures Strip(line, IsUnicodeSpace) != [] ==>
      forall i :: 0 <= i < |Sections(line)| ==> Sections(line)[i] != ""
  {
    var s := Strip(line, IsUnicodeSpace);
    NoBlankInPieces(SplitOnSpaceRuns(s));
    if s != [] {
      StrippedPiecesNonEmpty(s);
    }
  }

  /** A text that starts and ends with no white space splits into non-empty pieces. */
  lemma StrippedPiecesNonEmpty(s: string)
    requires s != [] && !IsUnicodeSpace(s[0]) && !IsUnicodeSpace(s[|s| - 1])
    ensures forall i :: 0 <= i < |SplitOnSpaceRuns(s)| ==> SplitOnSpaceRuns(s)[i] != ""
  {
    ReSpaceIsUnicodeSpace(s[0]);
    ReSpaceIsUnicodeSpace(s[|s| - 1]);
  }

  /** Pieces free of regular-expression white space hold no blank. */
  lemma NoBlankInPieces(r: seq<string>)
    requires forall i, j :: 0 <= i < |r| && 0 <= j < |r[i]| ==> !IsReSpace(r[i][j])
    ensures forall i :: 0 <= i < |r| ==> !Has(r[i], ' ')
  {
    forall i | 0 <= i < |r| ensures !Has(r[i], ' ') {
      assert forall j :: 0 <= j < |r[i]| ==> !IsReSpace(r[i][j]);
    }
  }

  /** What `\s` matches, `unicode.strip()` removes. */
  lemma ReSpaceIsUnicodeSpace(c: char)
    ensures IsReSpace(c) ==> IsUnicodeSpace(c)
  {
  }

  /** `one.two` is parsed as it is, with the labels `one` and `two`. */
  lemma OneTwoParse(p: Platform)
    ensures Parse(p, "one.two").parts == ["one", "two"]
  {
    var parts := ["one", "two"];
    OneTwoText();
    assert Dotless(parts) by {
      assert !Has(parts[0], '.') && !Has(parts[1], '.');
    }
    ParseOfJoin(p, parts);
  }

  /** The text `one.two`: the two labels joined, lower-case ASCII without a colon. */
  lemma OneTwoText()
    ensures Join(["one", "two"], '.') == "one.two"
    ensures !Has("one.two", ':') && AllAscii("one.two")
    ensures forall i :: 0 <= i < |"one.two"| ==> !('A' <= "one.two"[i] <= 'Z')
  {
  }

  /** The section `one.two` is no URL: its domain has the labels `one` and `two`. */
  lemma OneTwoLabels(p: Platform)
    ensures Found(p, "one.two").parts == ["one", "two"]
  {
    ContainsHas("one.two", "://");
    assert !Has("one.two", ':');
    assert Candidate(p, "one.two") == "one.two";
    OneTwoParse(p);
  }

  /** `two` is no known suffix, so the validity of `one.two` raises. */
  lemma OneTwoInvalid()
    ensures forall p: Platform :: Valid(p, ["one", "two"]) == Failure(AttributeError)
  {
    var parts := ["one", "two"];
    TwoUnknown();
    assert "" !in parts;
    UnknownSuffixRaises(parts);
  }

  /**
   * Any extraction that meets the section `one.two` raises, as the documented
   * example of `extract` does.
   */
  lemma OneTwoRaises(p: Platform, before: seq<string>, after: seq<string>)
    ensures KeepValid(p, before + ["one.two"] + after) == Failure(AttributeError)
  {
    OneTwoLabels(p);
    OneTwoInvalid();
    assert Keeps(p, "one.two") == Failure(AttributeError);
    var all := before + ["one.two"] + after;
    assert all[|before|] == "one.two";
    ExtractOutcome(p, all);
  }
}
