/**
 * The `Domain` class of `domaintools/__init__.py`: a domain name split into
 * labels, its top-level domain read off fixed tables, the second-level domain
 * and subdomain read off the labels by position, validity, equality and the
 * extraction of valid domains from text.
 *
 * Every property of the class is computed from the label list alone and cached
 * on first read; the cache cannot change what a read returns, so each property
 * is a function of the labels here, and a `Domain` value carries the text and
 * the labels the constructor computed.
 */
module Domains {
  import opened Wrappers
  import opened Text
  import opened Codecs
  import opened Tables

  /** A parsed domain: the lower-cased text and its labels. */
  datatype Domain = Domain(fullDomain: string, parts: seq<string>)

  /** Labels hold no dot, as the labels of every domain the constructor builds. */
  predicate Dotless(parts: seq<string>) {
    forall i :: 0 <= i < |parts| ==> !Has(parts[i], '.')
  }

  /** `tld`: the suffix the tables recognise, read at the end of the labels. */
  function Tld(parts: seq<string>): (r: Result<Option<string>>)
    ensures r.Failure? <==> |parts| == 0 || (|parts| == 1 && Lookup(FakeTlds, parts[0]).Some?)
    ensures r.Failure? ==> r.error == IndexError
    ensures r.Success? && r.value.Some? ==>
      || r.value.value == parts[|parts| - 1]
      || (|parts| >= 2 && r.value.value == parts[|parts| - 2] + "." + parts[|parts| - 1])
  {
    if |parts| == 0 then Failure(IndexError)
    else
      var tld := parts[|parts| - 1];
      var fake := Lookup(FakeTlds, tld);
      if fake.Some? && |parts| < 2 then Failure(IndexError)
      else if fake.Some? && Listed(fake.value, parts[|parts| - 2]) then
        Success(Some(parts[|parts| - 2] + "." + tld))
      else if Listed(Tlds, tld) then Success(Some(tld))
      else if Listed(CcTlds, tld) then
        if |parts| >= 2 then
          var tldSld := parts[|parts| - 2];
          if Listed(NoCustomSlds + SomeCustomSlds, tld) && Listed(SecondLevelNames(tld), tldSld) then
            Success(Some(tldSld + "." + tld))
          else if !Listed(NoCustomSlds, tld) then Success(Some(tld))
          else Success(None)
        else Success(None)
      else Success(None)
  }

  /** The last two labels are a fake TLD and one of the names sold under it. */
  predicate FakePair(parts: seq<string>) {
    var n := |parts|;
    && n >= 2
    && Lookup(FakeTlds, parts[n - 1]).Some?
    && Listed(Lookup(FakeTlds, parts[n - 1]).value, parts[n - 2])
  }

  /**
   * The last label is a ccTLD with fixed second-level names, and the label
   * before it is one of them.
   */
  predicate CountryPair(parts: seq<string>) {
    var n := |parts|;
    && n >= 2
    && Listed(NoCustomSlds + SomeCustomSlds, parts[n - 1])
    && Listed(SecondLevelNames(parts[n - 1]), parts[n - 2])
  }

  /**
   * `tld` takes the last two labels exactly for a fake pair, or for a ccTLD
   * that is no gTLD preceded by one of its second-level names.
   */
  lemma TldTwoLabels(parts: seq<string>)
    requires |parts| >= 2
    ensures var n := |parts|;
      Tld(parts) == Success(Some(parts[n - 2] + "." + parts[n - 1])) <==>
        || FakePair(parts)
        || (!Listed(Tlds, parts[n - 1]) && Listed(CcTlds, parts[n - 1]) && CountryPair(parts))
  {
    var t := parts[|parts| - 1];
    if Lookup(FakeTlds, t).Some? {
      FakeTldsGeneric(t);
    }
  }

  /**
   * `tld` is the last label alone exactly for a gTLD that does not form a fake
   * pair (and is not a lone fake TLD, which raises), or for a ccTLD that is no
   * gTLD, has a label before it that is not one of its second-level names,
   * and admits custom second-level names.
   */
  lemma TldOneLabel(parts: seq<string>)
    requires |parts| >= 1
    ensures var n := |parts|; var t := parts[n - 1];
      Tld(parts) == Success(Some(t)) <==>
        || (Listed(Tlds, t) && !FakePair(parts) && (n >= 2 || Lookup(FakeTlds, t).None?))
        || (!Listed(Tlds, t) && Listed(CcTlds, t) && n >= 2 && !CountryPair(parts)
            && !Listed(NoCustomSlds, t))
  {
    var t := parts[|parts| - 1];
    if Lookup(FakeTlds, t).Some? {
      FakeTldsGeneric(t);
    }
  }

  /**
   * `tld` is `None` exactly when the last label is no gTLD and either no
   * ccTLD, or a ccTLD standing alone, or a ccTLD without custom second-level
   * names whose label before it is not one of its second-level names.
   */
  lemma TldNone(parts: seq<string>)
    requires |parts| >= 1
    ensures var n := |parts|; var t := parts[n - 1];
      Tld(parts) == Success(None) <==>
        && !Listed(Tlds, t)
        && (|| !Listed(CcTlds, t)
            || n == 1
            || (Listed(NoCustomSlds, t) && !Listed(SecondLevelNames(t), parts[n - 2])))
  {
    var t := parts[|parts| - 1];
    if Lookup(FakeTlds, t).Some? {
      FakeTldsGeneric(t);
    }
    if Listed(NoCustomSlds, t) {
      ListedInPrefix(NoCustomSlds, SomeCustomSlds, t);
    }
  }

  /** `sld`: the label just left of the suffix, if there is one. */
  function Sld(parts: seq<string>): (r: Result<Option<string>>)
    ensures r.Failure? <==> Tld(parts).Failure?
    ensures r.Success? && r.value.Some? ==> Tld(parts).value.Some?
  {
    var tld :- Tld(parts);
    if tld.None? then Success(None)
    else if Has(tld.value, '.') then
      if |parts| >= 3 then Success(Some(parts[|parts| - 3])) else Success(None)
    else if |parts| >= 2 then Success(Some(parts[|parts| - 2]))
    else Success(None)
  }

  /**
   * The SLD is absent exactly when there is no TLD, or when the TLD takes
   * every label: one label for a one-label TLD, two for a two-label one.
   */
  lemma SldAbsent(parts: seq<string>)
    requires Dotless(parts)
    ensures Tld(parts) == Success(None) ==> Sld(parts) == Success(None)
    ensures Tld(parts).Success? && Tld(parts).value.Some? ==>
      (Sld(parts).value.None? <==> |parts| == if Has(Tld(parts).value.value, '.') then 2 else 1)
  {
    if Tld(parts).Success? && Tld(parts).value.Some? {
      var n := |parts|;
      var tld := Tld(parts).value.value;
      if tld == parts[n - 1] {
        assert !Has(parts[n - 1], '.');
      } else {
        assert tld == parts[n - 2] + "." + parts[n - 1];
        assert tld[|parts[n - 2]|] == '.';
      }
    }
  }

  /** `subdomain`: the labels further left, joined by dots, if there are any. */
  function Subdomain(parts: seq<string>): (r: Result<Option<string>>)
    ensures r.Failure? <==> Tld(parts).Failure?
    ensures r.Success? && r.value.Some? ==> Sld(parts).value.Some?
  {
    var tld :- Tld(parts);
    if tld.None? then Success(None)
    else if Has(tld.value, '.') then
      if |parts| >= 4 then Success(Some(Join(parts[..|parts| - 3], '.'))) else Success(None)
    else if |parts| >= 3 then Success(Some(Join(parts[..|parts| - 2], '.')))
    else Success(None)
  }

  /**
   * `__str__`: the subdomain as it is (when non-empty), then the second-level
   * and top-level domains through the `idna` codec, joined by dots. Calling
   * `encode` on a missing second-level domain raises `AttributeError`.
   */
  function Str(p: Platform, parts: seq<string>): (r: Result<string>)
    ensures r.Failure? && r.error == IndexError <==> Tld(parts).Failure?
    ensures r.Failure? && r.error == AttributeError <==> Sld(parts) == Success(None)
    ensures r.Success? ==> Sld(parts).value.Some? && Tld(parts).value.Some?
  {
    var sub :- Subdomain(parts);
    var frags := if sub.Some? && sub.value != "" then [sub.value] else [];
    // `tld` was read without error above, so `sld` and `tld` read without error here.
    var sld := Sld(parts).value;
    if sld.None? then Failure(AttributeError)
    else
      var encSld :- OrUnicodeError(IdnaEncode(p, sld.value));
      var tld := Tld(parts).value;
      if tld.None? then Failure(AttributeError)
      else
        var encTld :- OrUnicodeError(IdnaEncode(p, tld.value));
        Success(Join(frags + [encSld, encTld], '.'))
  }

  /** The characters of the pattern `[a-z0-9.-]`. */
  predicate IsValidChar(c: char) {
    'a' <= c <= 'z' || '0' <= c <= '9' || c == '.' || c == '-'
  }

  predicate AllValidChars(s: string) {
    forall i :: 0 <= i < |s| ==> IsValidChar(s[i])
  }

  /**
   * `re.match(r'^[a-z0-9.-]+$', s)` succeeds: Python's `$` also matches just
   * before a newline that ends the string.
   */
  predicate MatchesValidChars(s: string) {
    || (|s| >= 1 && AllValidChars(s))
    || (|s| >= 2 && s[|s| - 1] == '\n' && AllValidChars(s[..|s| - 1]))
  }

  /**
   * `valid`: at least two labels, none empty, an ASCII form in
   * `[a-z0-9.-]`, and a recognised suffix with a label left of it. The ASCII
   * form is built before the last two checks, so a missing second-level
   * domain raises `AttributeError`; a `UnicodeError` of the codec reads as
   * invalid.
   */
  function Valid(p: Platform, parts: seq<string>): (r: Result<bool>)
    ensures r.Failure? <==> |parts| >= 2 && "" !in parts && Sld(parts) == Success(None)
    ensures r.Failure? ==> r.error == AttributeError
    ensures r == Success(true) ==>
      && |parts| >= 2 && "" !in parts
      && Tld(parts).Success? && Tld(parts).value.Some? && Sld(parts).value.Some?
      && Str(p, parts).Success? && MatchesValidChars(Str(p, parts).value)
    ensures |parts| >= 2 && Str(p, parts) == Failure(UnicodeError) ==> r == Success(false)
  {
    if |parts| < 2 || "" in parts then Success(false)
    else
      match Str(p, parts)
      case Failure(e) => if e == UnicodeError then Success(false) else Failure(e)
      case Success(s) =>
        Success(MatchesValidChars(s) && "" !in parts
                && Tld(parts).value.Some? && Sld(parts).value.Some?)
  }

  /** `domain`: second-level plus top-level domain of a valid name, else `None`. */
  function RegistrableDomain(p: Platform, parts: seq<string>): (r: Result<Option<string>>)
    ensures r.Success? <==> Valid(p, parts).Success?
    ensures r.Success? ==> (r.value.Some? <==> Valid(p, parts).value)
    ensures r.Success? && r.value.Some? ==>
      r.value.value == Sld(parts).value.value + "." + Tld(parts).value.value
  {
    var valid :- Valid(p, parts);
    if valid then Success(Some(Sld(parts).value.value + "." + Tld(parts).value.value))
    else Success(None)
  }

  /**
   * `__eq__`: the top-level domains, then the second-level domains, then the
   * subdomains compare equal. Reading `tld` on either side may raise.
   */
  function Equals(parts: seq<string>, other: seq<string>): (r: Result<bool>)
    ensures r.Failure? <==> Tld(parts).Failure? || Tld(other).Failure?
    ensures r.Failure? ==> r.error == IndexError
    ensures r.Success? ==> (r.value <==>
      (Tld(parts), Sld(parts), Subdomain(parts)) == (Tld(other), Sld(other), Subdomain(other)))
  {
    var tld :- Tld(parts);
    var otherTld :- Tld(other);
    Success(tld == otherTld && Sld(parts) == Sld(other) && Subdomain(parts) == Subdomain(other))
  }

  /** `__ne__`: the negation of `__eq__`, raising where it raises. */
  function NotEquals(parts: seq<string>, other: seq<string>): (r: Result<bool>)
    ensures r.Failure? <==> Equals(parts, other).Failure?
    ensures r.Success? ==> r.value == !Equals(parts, other).value
  {
    var eq :- Equals(parts, other);
    Success(!eq)
  }

  /** `rsplit(':', 1)[0]` when a colon is present: the text before the last colon. */
  function StripPort(s: string): (r: string)
    ensures Has(s, ':') ==> |r| < |s| && r == s[..|r|] && s[|r|] == ':' && !Has(s[|r| + 1..], ':')
    ensures !Has(s, ':') ==> r == s
  {
    if Has(s, ':') then BeforeLast(s, ':') else s
  }

  /**
   * `Domain(s, decode_idna)`: the port is cut off at the last colon, an
   * `xn--` name is decoded when asked, the text is lower-cased and split on
   * dots, and one trailing empty label is dropped; other empty labels stay.
   * Joining the labels gives the text back, less the final dot.
   */
  function New(p: Platform, s: string, decodeIdna: bool): (r: Result<Domain>)
    ensures r.Failure? <==>
      decodeIdna && Contains(StripPort(s), "xn--") && IdnaDecode(p, StripPort(s)).None?
    ensures r.Failure? ==> r.error == UnicodeError
    ensures !(decodeIdna && Contains(StripPort(s), "xn--")) ==>
      r.Success? && r.value.fullDomain == Lower(p, StripPort(s))
    ensures decodeIdna && Contains(StripPort(s), "xn--") && r.Success? ==>
      r.value.fullDomain == Lower(p, IdnaDecode(p, StripPort(s)).value)
    ensures r.Success? ==> Dotless(r.value.parts)
    ensures r.Success? ==>
      var d := r.value;
      && (d.parts == Split(d.fullDomain, '.') || d.parts + [""] == Split(d.fullDomain, '.'))
      && (d.fullDomain == "" ==> d.parts == [])
      && (d.fullDomain != "" ==>
            Join(d.parts, '.') + (if d.fullDomain[|d.fullDomain| - 1] == '.' then "." else "")
            == d.fullDomain)
  {
    var host := StripPort(s);
    var decoded :-
      if decodeIdna && Contains(host, "xn--") then OrUnicodeError(IdnaDecode(p, host))
      else Success(host);
    var full := Lower(p, decoded);
    HostLabelsJoin(full);
    HostLabelsSplit(full);
    Success(Domain(full, HostLabels(full)))
  }

  /**
   * Decoding reads the host as unicode text split on every IDNA dot, not
   * only `.`: an `xn--` label, any of the four dots and a second label give
   * the two labels decoded one by one and joined by a full stop.
   */
  lemma DecodeSplitsOnIdnaDots(p: Platform, a: string, dot: char, b: string, da: string, db: string)
    requires NoDots(a) && NoDots(b) && b != "" && IsDot(dot)
    requires !Has(a, ':') && !Has(b, ':') && "xn--" <= a
    requires LabelToUnicode(p, a) == Some(da) && LabelToUnicode(p, b) == Some(db)
    ensures New(p, a + [dot] + b, true).Success?
    ensures New(p, a + [dot] + b, true).value.fullDomain == Lower(p, da + "." + db)
  {
    var s := a + [dot] + b;
    assert !Has(s, ':') by {
      forall i | 0 <= i < |s| ensures s[i] != ':' {
        if i < |a| { assert s[i] == a[i]; } else if i > |a| { assert s[i] == b[i - |a| - 1]; }
      }
    }
    assert "xn--" <= s by { assert s[..|a|] == a; }
    assert Contains(s, "xn--");
    DecodeTwoLabels(p, a, dot, b, da, db);
  }

  /** The `idna` codec on unicode text: two labels around an IDNA dot decode one by one. */
  lemma DecodeTwoLabels(p: Platform, a: string, dot: char, b: string, da: string, db: string)
    requires NoDots(a) && NoDots(b) && b != "" && IsDot(dot)
    requires LabelToUnicode(p, a) == Some(da) && LabelToUnicode(p, b) == Some(db)
    ensures IdnaDecode(p, a + [dot] + b) == Some(da + "." + db)
  {
    SplitDotsAfterLabel(a, dot, b);
    SplitDotsNoDots(b);
    var labels := [a, b];
    assert SplitDots(a + [dot] + b) == labels;
    forall i | 0 <= i < |labels| ensures LabelToUnicode(p, labels[i]).Some? {
      assert labels[i] == a || labels[i] == b;
    }
    var decoded := LabelsToUnicode(p, labels);
    assert decoded.Some?;
    assert decoded.value[0] == da && decoded.value[1] == db;
    assert decoded.value == [da, db];
    assert DropTrailingEmpty(labels) == labels;
    assert Join([da, db], '.') == da + "." + db;
    assert a + [dot] + b != "";
    assert Join([da, db], '.') + "" == da + "." + db;
  }

  /** `Domain(s)`, which cannot fail without IDNA decoding. */
  function Parse(p: Platform, s: string): Domain {
    New(p, s, false).value
  }

  /**
   * A lower-case ASCII name without a colon or a final dot parses into the
   * labels it was joined from.
   */
  lemma ParseOfJoin(p: Platform, parts: seq<string>)
    requires |parts| >= 1 && parts[|parts| - 1] != "" && Dotless(parts)
    requires var s := Join(parts, '.');
      && !Has(s, ':') && AllAscii(s) && forall i :: 0 <= i < |s| ==> !('A' <= s[i] <= 'Z')
    ensures Parse(p, Join(parts, '.')).parts == parts
  {
    LowerOfLower(p, Join(parts, '.'));
    HostLabelsOfJoin(parts);
  }

  /**
   * A name joined from dotless labels in `[a-z0-9-]`, the last one non-empty,
   * parses back into those labels.
   */
  lemma ParseOfPlainLabels(p: Platform, parts: seq<string>)
    requires |parts| >= 1 && parts[|parts| - 1] != "" && Dotless(parts)
    requires forall i :: 0 <= i < |parts| ==> AllValidChars(parts[i])
    ensures Parse(p, Join(parts, '.')).parts == parts
  {
    var s := Join(parts, '.');
    JoinValidChars(parts);
    assert !Has(s, ':');
    ParseOfJoin(p, parts);
  }

  /** A text made of two plain labels and a dot parses back into those two labels. */
  lemma ParseOfTwoPlainLabels(p: Platform, a: string, b: string, s: string)
    requires s == a + "." + b
    requires b != "" && !Has(a, '.') && !Has(b, '.')
    requires AllValidChars(a) && AllValidChars(b)
    ensures Parse(p, s).parts == [a, b]
  {
    var parts := [a, b];
    assert Join(parts, '.') == s by {
      assert Join(parts[1..], '.') == b;
    }
    ParseOfPlainLabels(p, parts);
  }

  /** Keeps the present values, in order. */
  function Present(xs: seq<Option<string>>): seq<string> {
    if xs == [] then [] else (if xs[0].Some? then [xs[0].value] else []) + Present(xs[1..])
  }

  /** Joining the labels left of `i`, label `i` and the labels right of it rebuilds the join. */
  lemma {:induction false} JoinAround(parts: seq<string>, i: nat)
    requires i + 1 < |parts|
    ensures Join(Present([if i == 0 then None else Some(Join(parts[..i], '.')),
                          Some(parts[i]), Some(Join(parts[i + 1..], '.'))]), '.')
            == Join(parts, '.')
    ensures Join((if i == 0 then [] else [Join(parts[..i], '.')])
                 + [parts[i], Join(parts[i + 1..], '.')], '.')
            == Join(parts, '.')
  {
    var pre, sld, rest := parts[..i], parts[i], parts[i + 1..];
    var tld := Join(rest, '.');
    JoinAppend([sld], rest, '.');
    assert [sld] + rest == parts[i..];
    assert Present([Some(tld)]) == [tld];
    assert Present([Some(sld), Some(tld)]) == [sld, tld];
    assert Join([sld, tld], '.') == Join(parts[i..], '.');
    if i == 0 {
      assert parts[i..] == parts;
    } else {
      var sub := Join(pre, '.');
      JoinAppend(pre, parts[i..], '.');
      assert pre + parts[i..] == parts;
      assert Present([Some(sub), Some(sld), Some(tld)]) == [sub, sld, tld];
      assert Join([sub, sld, tld], '.') == sub + "." + Join([sld, tld], '.');
    }
  }

  /**
   * When there is a second-level domain it is the label just left of the
   * suffix, the subdomain is everything further left, and joining the three
   * that are present rebuilds the whole name.
   */
  lemma Decomposition(parts: seq<string>) returns (i: nat)
    requires Dotless(parts)
    requires Sld(parts).Success? && Sld(parts).value.Some?
    ensures i + 2 <= |parts| <= i + 3
    ensures Sld(parts).value.value == parts[i]
    ensures Tld(parts) == Success(Some(Join(parts[i + 1..], '.')))
    ensures Subdomain(parts) == Success(if i == 0 then None else Some(Join(parts[..i], '.')))
    ensures Join(Present([Subdomain(parts).value, Sld(parts).value, Tld(parts).value]), '.')
            == Join(parts, '.')
  {
    if Tld(parts).value.value == parts[|parts| - 1] {
      i := OneLabelSuffix(parts);
    } else {
      i := TwoLabelSuffix(parts);
    }
    JoinAround(parts, i);
  }

  /** `Decomposition` when the suffix is the last label. */
  lemma OneLabelSuffix(parts: seq<string>) returns (i: nat)
    requires Dotless(parts)
    requires Sld(parts).Success? && Sld(parts).value.Some?
    requires Tld(parts).value.value == parts[|parts| - 1]
    ensures i + 2 == |parts|
    ensures Sld(parts).value.value == parts[i]
    ensures Tld(parts) == Success(Some(Join(parts[i + 1..], '.')))
    ensures Subdomain(parts) == Success(if i == 0 then None else Some(Join(parts[..i], '.')))
  {
    assert !Has(parts[|parts| - 1], '.');
    i := |parts| - 2;
    assert parts[i + 1..] == [parts[|parts| - 1]];
  }

  /** `Decomposition` when the suffix is the last two labels. */
  lemma TwoLabelSuffix(parts: seq<string>) returns (i: nat)
    requires Dotless(parts)
    requires Sld(parts).Success? && Sld(parts).value.Some?
    requires Tld(parts).value.value != parts[|parts| - 1]
    ensures i + 3 == |parts|
    ensures Sld(parts).value.value == parts[i]
    ensures Tld(parts) == Success(Some(Join(parts[i + 1..], '.')))
    ensures Subdomain(parts) == Success(if i == 0 then None else Some(Join(parts[..i], '.')))
  {
    var n := |parts|;
    var tld := Tld(parts).value.value;
    assert tld == parts[n - 2] + "." + parts[n - 1];
    assert Has(tld, '.') by { assert tld[|parts[n - 2]|] == '.'; }
    i := n - 3;
    assert parts[i + 1..] == [parts[n - 2], parts[n - 1]];
  }

  /** A recognised suffix ends in a label named in the TLD or ccTLD tables, so a short label. */
  lemma LastLabelName(parts: seq<string>)
    requires Tld(parts).Success? && Tld(parts).value.Some?
    ensures Listed(Tlds, parts[|parts| - 1]) || Listed(CcTlds, parts[|parts| - 1])
    ensures IsShortLabel(parts[|parts| - 1])
  {
    var t := parts[|parts| - 1];
    if Lookup(FakeTlds, t).Some? {
      FakeTldsGeneric(t);
    }
    TopLevelNames();
  }

  lemma AllValidCharsConcat(a: string, b: string)
    ensures AllValidChars(a + b) <==> AllValidChars(a) && AllValidChars(b)
  {
    if AllValidChars(a) && AllValidChars(b) {
      forall k | 0 <= k < |a + b| ensures IsValidChar((a + b)[k]) {
        if k < |a| { assert (a + b)[k] == a[k]; } else { assert (a + b)[k] == b[k - |a|]; }
      }
    }
    if AllValidChars(a + b) {
      forall k | 0 <= k < |a| ensures IsValidChar(a[k]) { assert (a + b)[k] == a[k]; }
      forall k | 0 <= k < |b| ensures IsValidChar(b[k]) { assert (a + b)[|a| + k] == b[k]; }
    }
  }

  /** A dot-joined name is in `[a-z0-9.-]` exactly when each of its labels is. */
  lemma {:induction false} JoinValidChars(parts: seq<string>)
    ensures AllValidChars(Join(parts, '.')) <==>
      forall i :: 0 <= i < |parts| ==> AllValidChars(parts[i])
    decreases |parts|
  {
    if |parts| > 1 {
      JoinValidChars(parts[1..]);
      AllValidCharsConcat(parts[0] + ".", Join(parts[1..], '.'));
      AllValidCharsConcat(parts[0], ".");
      forall i | 1 <= i < |parts| ensures parts[i] == parts[1..][i - 1] {}
    }
  }

  /**
   * Labels whose last one does not end in a newline match the pattern exactly
   * when each label is made of its characters.
   */
  lemma MatchesJoin(parts: seq<string>)
    requires |parts| >= 1 && parts[|parts| - 1] != ""
    requires parts[|parts| - 1][|parts[|parts| - 1]| - 1] != '\n'
    ensures MatchesValidChars(Join(parts, '.')) <==>
      forall i :: 0 <= i < |parts| ==> AllValidChars(parts[i])
  {
    var n := |parts|;
    var last := parts[n - 1];
    var s := Join(parts, '.');
    JoinValidChars(parts);
    if n > 1 {
      JoinAppend(parts[..n - 1], [last], '.');
      assert parts[..n - 1] + [last] == parts;
    }
    assert s[|s| - 1] == last[|last| - 1];
  }

  /** The `idna` codec on one ASCII label: unchanged if it has at most 63 characters. */
  lemma EncodeLabel(p: Platform, s: string)
    requires AllAscii(s) && s != "" && !Has(s, '.')
    ensures IdnaEncode(p, s) == if |s| < 64 then Some(s) else None
  {
    EncodeAscii(p, s);
    HostLabelsOfJoin([s]);
    assert Join([s], '.') == s;
  }

  /** The `idna` codec on two ASCII labels: unchanged if each has at most 63 characters. */
  lemma EncodePair(p: Platform, a: string, b: string)
    requires AllAscii(a) && a != "" && !Has(a, '.')
    requires AllAscii(b) && b != "" && !Has(b, '.')
    ensures IdnaEncode(p, a + "." + b) == if |a| < 64 && |b| < 64 then Some(a + "." + b) else None
  {
    var s := a + "." + b;
    assert AllAscii(s) by {
      forall k | 0 <= k < |s| ensures IsAscii(s[k]) {
        if k < |a| { assert s[k] == a[k]; } else if k > |a| { assert s[k] == b[k - |a| - 1]; }
      }
    }
    EncodeAscii(p, s);
    HostLabelsOfJoin([a, b]);
    assert Join([a, b], '.') == s;
  }

  /**
   * On ASCII labels, none empty, the ASCII form is the dot-joined labels; it
   * can be built exactly when the second-level domain and the label before the
   * last have at most 63 characters. Subdomain labels are not checked.
   */
  lemma StrAscii(p: Platform, parts: seq<string>)
    requires Dotless(parts)
    requires forall i :: 0 <= i < |parts| ==> parts[i] != "" && AllAscii(parts[i])
    requires Sld(parts).Success? && Sld(parts).value.Some?
    ensures Str(p, parts).Success? <==>
      |Sld(parts).value.value| < 64 && |parts[|parts| - 2]| < 64
    ensures Str(p, parts).Success? ==> Str(p, parts).value == Join(parts, '.')
  {
    var i := Decomposition(parts);
    LastLabelName(parts);
    EncodeLabel(p, parts[i]);
    SuffixAscii(p, parts, i);
    if i > 0 {
      var pre := parts[..i];
      assert |Join(pre, '.')| >= |pre[0]|;
    }
    JoinAround(parts, i);
  }

  /**
   * The suffix of ASCII labels, the last one or the last two joined, goes
   * through the `idna` codec unchanged when its labels have at most 63
   * characters.
   */
  lemma SuffixAscii(p: Platform, parts: seq<string>, i: nat)
    requires Dotless(parts)
    requires forall k :: 0 <= k < |parts| ==> parts[k] != "" && AllAscii(parts[k])
    requires i + 2 <= |parts| <= i + 3 && |parts[|parts| - 1]| < 64
    ensures IdnaEncode(p, Join(parts[i + 1..], '.')) ==
      if i == |parts| - 2 || |parts[|parts| - 2]| < 64 then Some(Join(parts[i + 1..], '.')) else None
  {
    var n := |parts|;
    var last := parts[n - 1];
    if i == n - 2 {
      assert parts[i + 1..] == [last];
      EncodeLabel(p, last);
    } else {
      assert parts[i + 1..] == [parts[n - 2], last];
      assert Join([parts[n - 2], last], '.') == parts[n - 2] + "." + last;
      EncodePair(p, parts[n - 2], last);
    }
  }

  /** With two or more labels, none empty, validity is the pattern match on the ASCII form. */
  lemma ValidShape(p: Platform, parts: seq<string>)
    requires |parts| >= 2 && "" !in parts && Str(p, parts).Success?
    ensures Valid(p, parts) == Success(MatchesValidChars(Str(p, parts).value))
  {
  }

  /**
   * Validity of a name whose labels are ASCII: at least two labels, each
   * non-empty and made of lower-case letters, digits and hyphens, a
   * second-level domain, and at most 63 characters in the second-level domain
   * and in the label before the last.
   */
  lemma ValidAscii(p: Platform, parts: seq<string>)
    requires Dotless(parts)
    requires forall i :: 0 <= i < |parts| ==> AllAscii(parts[i])
    ensures Valid(p, parts) == Success(true) <==>
      && |parts| >= 2
      && (forall i :: 0 <= i < |parts| ==> parts[i] != "" && AllValidChars(parts[i]))
      && Sld(parts).Success? && Sld(parts).value.Some?
      && |Sld(parts).value.value| < 64 && |parts[|parts| - 2]| < 64
  {
    if |parts| >= 2 && "" !in parts && Sld(parts).Success? && Sld(parts).value.Some? {
      ValidAsciiWithSld(p, parts);
    } else if |parts| >= 2 && "" in parts {
      var k :| 0 <= k < |parts| && parts[k] == "";
    }
  }

  /** `ValidAscii` for a name with a second-level domain and no empty label. */
  lemma ValidAsciiWithSld(p: Platform, parts: seq<string>)
    requires Dotless(parts)
    requires forall i :: 0 <= i < |parts| ==> AllAscii(parts[i])
    requires |parts| >= 2 && "" !in parts && Sld(parts).Success? && Sld(parts).value.Some?
    ensures Valid(p, parts) == Success(true) <==>
      && (forall i :: 0 <= i < |parts| ==> AllValidChars(parts[i]))
      && |Sld(parts).value.value| < 64 && |parts[|parts| - 2]| < 64
  {
    StrAscii(p, parts);
    if Str(p, parts).Success? {
      ValidShape(p, parts);
      LastLabelName(parts);
      MatchesJoin(parts);
    }
  }

  /** A valid name's registrable domain is its last two or three labels, joined. */
  lemma RegistrableDomainLabels(p: Platform, parts: seq<string>) returns (i: nat)
    requires Dotless(parts) && Valid(p, parts) == Success(true)
    ensures i + 2 <= |parts| <= i + 3
    ensures RegistrableDomain(p, parts) == Success(Some(Join(parts[i..], '.')))
    ensures Subdomain(parts) == Success(if i == 0 then None else Some(Join(parts[..i], '.')))
  {
    i := Decomposition(parts);
    var rest := parts[i + 1..];
    JoinAppend([parts[i]], rest, '.');
    assert [parts[i]] + rest == parts[i..];
  }

  /** `__eq__` holds between names with the same labels, and `__ne__` fails. */
  lemma SameLabelsEqual(parts: seq<string>, other: seq<string>)
    requires parts == other && Tld(parts).Success?
    ensures Equals(parts, other) == Success(true)
    ensures NotEquals(parts, other) == Success(false)
  {
  }

  /** Equal suffix, second-level domain and subdomain mean equal labels. */
  lemma SameParts(parts: seq<string>, other: seq<string>)
    requires Dotless(parts) && Dotless(other)
    requires Sld(parts).Success? && Sld(parts).value.Some?
    requires (Tld(parts), Sld(parts), Subdomain(parts)) == (Tld(other), Sld(other), Subdomain(other))
    ensures parts == other
  {
    var i := Decomposition(parts);
    var k := Decomposition(other);
    SplitJoin(parts, '.');
    SplitJoin(other, '.');
  }

  /**
   * For a name with a second-level domain, `__eq__` holds exactly when the
   * other name has the same labels: case, port and a final dot are ignored.
   */
  lemma EqualsIffSameLabels(parts: seq<string>, other: seq<string>)
    requires Dotless(parts) && Dotless(other)
    requires Sld(parts).Success? && Sld(parts).value.Some?
    ensures Equals(parts, other) == Success(true) <==> Tld(other).Success? && parts == other
  {
    if Equals(parts, other) == Success(true) {
      SameParts(parts, other);
    } else if Tld(other).Success? && parts == other {
      SameLabelsEqual(parts, other);
    }
  }

  /** Names with no known suffix all compare equal: the three parts are all `None`. */
  lemma UnknownSuffixesEqual(parts: seq<string>, other: seq<string>)
    requires Tld(parts) == Success(None) && Tld(other) == Success(None)
    ensures Equals(parts, other) == Success(true)
  {
  }

  /** Under `uk` the second-level name `co` is part of the suffix. */
  lemma CoUkSuffix(parts: seq<string>)
    requires |parts| >= 2 && parts[|parts| - 1] == "uk" && parts[|parts| - 2] == "co"
    ensures Tld(parts) == Success(Some("co" + "." + "uk"))
  {
    UkNotGeneric();
    UkCountryCode();
    UkNoCustom();
    UkSecondLevelNames();
  }

  /** `www.brokerdaze.co.uk` parses into its four labels. */
  lemma BrokerdazeParse(p: Platform)
    ensures Parse(p, "www.brokerdaze.co.uk").parts == ["www", "brokerdaze", "co", "uk"]
  {
    var parts := ["www", "brokerdaze", "co", "uk"];
    BrokerdazeLabels();
    BrokerdazeText();
    ParseOfPlainLabels(p, parts);
  }

  /** The labels of `www.brokerdaze.co.uk` are dotless and in `[a-z0-9-]`. */
  lemma BrokerdazeLabels()
    ensures var parts := ["www", "brokerdaze", "co", "uk"];
      && Dotless(parts) && forall i :: 0 <= i < |parts| ==> AllValidChars(parts[i])
  {
    var parts := ["www", "brokerdaze", "co", "uk"];
    assert !Has(parts[0], '.') && !Has(parts[1], '.') && !Has(parts[2], '.') && !Has(parts[3], '.');
    assert AllValidChars("www") && AllValidChars("brokerdaze") && AllValidChars("co") && AllValidChars("uk");
  }

  /** The four labels joined by dots are the text `www.brokerdaze.co.uk`. */
  lemma BrokerdazeText()
    ensures Join(["www", "brokerdaze", "co", "uk"], '.') == "www.brokerdaze.co.uk"
  {
    assert Join(["co", "uk"], '.') == "co.uk";
    assert Join(["brokerdaze", "co", "uk"], '.') == "brokerdaze.co.uk" by {
      assert ["brokerdaze", "co", "uk"][1..] == ["co", "uk"];
    }
    assert ["www", "brokerdaze", "co", "uk"][1..] == ["brokerdaze", "co", "uk"];
  }

  /**
   * The documented example: `Domain(u'www.brokerdaze.co.uk')` splits as `www`
   * / `brokerdaze` / `co.uk`.
   */
  lemma BrokerdazeExample(p: Platform)
    ensures var parts := Parse(p, "www.brokerdaze.co.uk").parts;
      && Tld(parts) == Success(Some("co" + "." + "uk"))
      && Sld(parts) == Success(Some("brokerdaze"))
      && Subdomain(parts) == Success(Some("www"))
  {
    BrokerdazeParse(p);
    var parts := ["www", "brokerdaze", "co", "uk"];
    CoUkSuffix(parts);
    assert Has("co" + "." + "uk", '.') by { assert ("co" + "." + "uk")[2] == '.'; }
    assert parts[..1] == ["www"];
  }

  /** `Domain('co.uk')` is a suffix with no label left of it: reading its validity raises. */
  lemma CoUkRaises(p: Platform)
    ensures Valid(p, Parse(p, "co.uk").parts) == Failure(AttributeError)
  {
    var parts := ["co", "uk"];
    CoUkSuffix(parts);
    assert Has("co" + "." + "uk", '.') by { assert ("co" + "." + "uk")[2] == '.'; }
    assert Sld(parts) == Success(None);
    assert "" !in parts;
    assert !Has("co", '.') && !Has("uk", '.');
    assert AllValidChars("co") && AllValidChars("uk");
    ParseOfTwoPlainLabels(p, "co", "uk", "co.uk");
  }

  /** A name whose last label is in none of the tables has no suffix. */
  lemma NoSuffix(parts: seq<string>)
    requires |parts| >= 1
    requires var t := parts[|parts| - 1];
      !Listed(Tlds, t) && !Listed(CcTlds, t) && Lookup(FakeTlds, t).None?
    ensures Tld(parts) == Success(None)
  {
  }

  /**
   * A name of two or more labels, none empty, whose last label is in none of
   * the tables: reading its validity raises rather than answering false.
   */
  lemma UnknownSuffixRaises(parts: seq<string>)
    requires |parts| >= 2 && "" !in parts
    requires var t := parts[|parts| - 1];
      !Listed(Tlds, t) && !Listed(CcTlds, t) && Lookup(FakeTlds, t).None?
    ensures forall p: Platform :: Valid(p, parts) == Failure(AttributeError)
  {
    NoSuffix(parts);
  }

  /**
   * `Domain('sub.goat')` ends in no known suffix: reading its validity raises
   * rather than answering false.
   */
  lemma SubGoatRaises(p: Platform)
    ensures Valid(p, Parse(p, "sub.goat").parts) == Failure(AttributeError)
  {
    var parts := ["sub", "goat"];
    GoatUnknown();
    assert "" !in parts;
    UnknownSuffixRaises(parts);
    assert !Has("sub", '.') && !Has("goat", '.');
    assert AllValidChars("sub") && AllValidChars("goat");
    ParseOfTwoPlainLabels(p, "sub", "goat", "sub.goat");
  }

  /** `goat.co.uk` parses into its three labels. */
  lemma GoatCoUkParse(p: Platform)
    ensures Parse(p, "goat.co.uk").parts == ["goat", "co", "uk"]
  {
    GoatCoUkLabels();
    GoatCoUkText();
    ParseOfPlainLabels(p, ["goat", "co", "uk"]);
  }

  /** The three labels joined by dots are the text `goat.co.uk`. */
  lemma GoatCoUkText()
    ensures Join(["goat", "co", "uk"], '.') == "goat.co.uk"
  {
    assert Join(["co", "uk"], '.') == "co.uk";
    assert ["goat", "co", "uk"][1..] == ["co", "uk"];
  }

  /** The labels `goat`, `co`, `uk` are dotless lower-case ASCII. */
  lemma GoatCoUkLabels()
    ensures var parts := ["goat", "co", "uk"];
      && Dotless(parts)
      && forall i :: 0 <= i < |parts| ==> AllAscii(parts[i]) && AllValidChars(parts[i])
  {
    var parts := ["goat", "co", "uk"];
    assert !Has(parts[0], '.') && !Has(parts[1], '.') && !Has(parts[2], '.');
    assert AllAscii("goat") && AllAscii("co") && AllAscii("uk");
    assert AllValidChars("goat") && AllValidChars("co") && AllValidChars("uk");
  }

  /** `Domain('goat.co.uk')` is valid. */
  lemma GoatCoUkValid(p: Platform)
    ensures Valid(p, Parse(p, "goat.co.uk").parts) == Success(true)
  {
    GoatCoUkParse(p);
    GoatCoUkLabelsValid(p);
  }

  /** The labels `goat`, `co`, `uk` are valid: `goat` is the SLD under `co.uk`. */
  lemma GoatCoUkLabelsValid(p: Platform)
    ensures Valid(p, ["goat", "co", "uk"]) == Success(true)
  {
    var parts := ["goat", "co", "uk"];
    GoatCoUkLabels();
    CoUkSuffix(parts);
    assert Has("co" + "." + "uk", '.') by { assert ("co" + "." + "uk")[2] == '.'; }
    assert Sld(parts) == Success(Some("goat"));
    ValidAscii(p, parts);
  }

  /**
   * A one-label name that is a fake top-level domain (`com`, `net`, `org`)
   * makes `tld` raise `IndexError`, yet `valid` answers false because it
   * checks the label count first.
   */
  lemma SingleFakeTld(p: Platform, t: string)
    requires Lookup(FakeTlds, t).Some?
    ensures Tld([t]) == Failure(IndexError)
    ensures Valid(p, [t]) == Success(false)
  {
  }

  /**
   * `pro` is listed as a country code with second-level names, but it is a
   * generic top-level domain, which is tried first: its second-level names
   * are never used.
   */
  lemma ProSecondLevelNamesUnused(parts: seq<string>)
    requires |parts| >= 1 && parts[|parts| - 1] == "pro"
    ensures Listed(SomeCustomSlds, "pro") && Lookup(CcTldSlds, "pro").Some?
    ensures Tld(parts) == Success(Some("pro"))
  {
    ProGeneric();
    ProSecondLevel();
  }
}
