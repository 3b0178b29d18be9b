/**
 * `parse_tld_data` of `domaintools/build_data_file.py`: reads the public
 * suffix list (bytes, one rule per line) into a table that files each rule,
 * in its `idna` form, under its last label, together with whether it came
 * after the start of the private section.
 */
module SuffixList {
  import opened Wrappers
  import opened Text
  import opened Codecs

  /** The white space `str.strip()` removes from a byte string. */
  predicate IsByteSpace(b: bv8) {
    b == 32 || 9 <= b <= 13
  }

  const NewLine: bv8 := 10

  /** The comment that opens the private section of the list. */
  const PrivateMarker: string := "// ===BEGIN PRIVATE DOMAINS==="

  /** Last label ↦ (rule ↦ whether the rule is private). */
  type Table = map<string, map<string, bool>>

  /** What one line of the list is. */
  datatype Line =
    | Marker          // the start of the private section
    | Skip            // a blank line or a comment
    | Rule(rule: string)  // a rule, in its `idna` form

  /** The label a rule is filed under: the last of its dot-separated fragments. */
  function Bucket(rule: string): (r: string)
    ensures !Has(r, '.')
  {
    var frags := Split(rule, '.');
    frags[|frags| - 1]
  }

  /**
   * The bucket ends the rule: it is all of it when the rule has no dot, and
   * otherwise what follows its last dot.
   */
  lemma BucketOfRule(rule: string)
    ensures |Bucket(rule)| <= |rule| && rule[|rule| - |Bucket(rule)|..] == Bucket(rule)
    ensures |Bucket(rule)| < |rule| <==> Has(rule, '.')
    ensures |Bucket(rule)| < |rule| ==> rule[|rule| - |Bucket(rule)| - 1] == '.'
  {
    var frags := Split(rule, '.');
    var n := |frags|;
    var last := frags[n - 1];
    assert last == Bucket(rule);
    JoinSplit(rule, '.');
    if n == 1 {
      assert rule == last;
    } else {
      JoinAppend(frags[..n - 1], [last], '.');
      assert frags[..n - 1] + [last] == frags;
      LastFragment(Join(frags[..n - 1], '.'), last, rule);
    }
  }

  lemma LastFragment(head: string, last: string, rule: string)
    requires rule == head + "." + last
    ensures |last| < |rule| && rule[|rule| - |last|..] == last
    ensures Has(rule, '.') && rule[|rule| - |last| - 1] == '.'
  {
    assert rule[|head|] == '.';
  }

  /**
   * One raw line: stripped, decoded as UTF-8, recognised as the private
   * marker, a blank line or a comment, or else encoded with the `idna` codec.
   * Either codec may raise `UnicodeError`.
   */
  function Classify(p: Platform, raw: seq<bv8>): (r: Result<Line>)
    ensures r.Failure? ==> r.error == UnicodeError
  {
    var line :- OrUnicodeError(p.utf8Decode(Strip(raw, IsByteSpace)));
    if PrivateMarker <= line then Success(Marker)
    else if line == "" || "//" <= line then Success(Skip)
    else
      var rule :- OrUnicodeError(IdnaEncode(p, line));
      Success(Rule(rule))
  }

  /** What the loop carries from line to line. */
  datatype Builder = Builder(private: bool, tlds: Table)

  /** The table after one more line. */
  function Step(b: Builder, line: Line): Builder {
    match line
    case Marker => b.(private := true)
    case Skip => b
    case Rule(rule) =>
      var key := Bucket(rule);
      var bucket := if key in b.tlds then b.tlds[key] else map[];
      b.(tlds := b.tlds[key := bucket[rule := b.private]])
  }

  /** The loop over the lines, from an empty table with the flag down. */
  function Ingest(p: Platform, lines: seq<seq<bv8>>): Result<Builder> {
    if lines == [] then Success(Builder(false, map[]))
    else
      var b :- Ingest(p, lines[..|lines| - 1]);
      var line :- Classify(p, lines[|lines| - 1]);
      Success(Step(b, line))
  }

  /** `parse_tld_data(data)`. */
  function TldData(p: Platform, data: seq<bv8>): Result<Table> {
    var b :- Ingest(p, Split(data, NewLine));
    Success(b.tlds)
  }

  lemma IngestSnoc(p: Platform, lines: seq<seq<bv8>>, raw: seq<bv8>)
    ensures Ingest(p, lines + [raw]) ==
      match Ingest(p, lines)
      case Failure(e) => Failure(e)
      case Success(b) =>
        match Classify(p, raw)
        case Failure(e) => Failure(e)
        case Success(line) => Success(Step(b, line))
  {
    assert (lines + [raw])[..|lines + [raw]| - 1] == lines;
  }

  /** Once a prefix raises, the whole list raises the same error. */
  lemma {:induction false} IngestPrefixFailure(p: Platform, a: seq<seq<bv8>>, b: seq<seq<bv8>>)
    requires Ingest(p, a).Failure?
    ensures Ingest(p, a + b) == Ingest(p, a)
    decreases |b|
  {
    if b == [] {
      assert a + b == a;
    } else {
      var b' := b[..|b| - 1];
      IngestPrefixFailure(p, a, b');
      assert (a + b)[..|a + b| - 1] == a + b';
    }
  }

  /** How a prefix of `s` grows by one element, and how it and the rest make up `s`. */
  lemma Prefix<T>(s: seq<T>, i: nat)
    requires i < |s|
    ensures s[..i + 1] == s[..i] + [s[i]] && (s[..i] + [s[i]]) + s[i + 1..] == s
  {
  }

  /** A non-empty sequence is its prefix and its last element. */
  lemma InitLast<T>(s: seq<T>)
    requires s != []
    ensures s[..|s| - 1] + [s[|s| - 1]] == s
  {
  }

  /** One pass of the loop of `parse_tld_data`: the flag and the table after one more line. */
  method ReadLine(p: Platform, private: bool, tlds: Table, raw: seq<bv8>) returns (r: Result<Builder>)
    ensures r == match Classify(p, raw)
      case Failure(e) => Failure(e)
      case Success(line) => Success(Step(Builder(private, tlds), line))
  {
    var decoded := p.utf8Decode(Strip(raw, IsByteSpace));
    if decoded.None? {
      return Failure(UnicodeError);
    }
    var line := decoded.value;
    if PrivateMarker <= line {
      // all later rules are private
      return Success(Builder(true, tlds));
    }
    if line == "" || "//" <= line {
      return Success(Builder(private, tlds));
    }
    var encoded := IdnaEncode(p, line);
    if encoded.None? {
      return Failure(UnicodeError);
    }
    var rule := encoded.value;
    var table := FileRule(private, tlds, rule);
    r := Success(Builder(private, table));
  }

  /** Files one rule under its bucket, creating the bucket on first use. */
  method FileRule(private: bool, tlds: Table, rule: string) returns (table: Table)
    ensures table == Step(Builder(private, tlds), Rule(rule)).tlds
  {
    var key := Bucket(rule);
    table := tlds;
    if key !in table {
      table := table[key := map[]];
    }
    table := table[key := table[key][rule := private]];
  }

  /** The loop of `parse_tld_data` over the lines of the list. */
  method IngestLines(p: Platform, lines: seq<seq<bv8>>) returns (r: Result<Table>)
    ensures r.Success? <==> Ingest(p, lines).Success?
    ensures r.Success? ==> r.value == Ingest(p, lines).value.tlds
    ensures r.Failure? ==> r.error == Ingest(p, lines).error == UnicodeError
  {
    var private := false;
    var tlds: Table := map[];
    var i := 0;
    assert lines[..0] == [];
    while i < |lines|
      invariant 0 <= i <= |lines|
      invariant Ingest(p, lines[..i]) == Success(Builder(private, tlds))
    {
      IngestSnoc(p, lines[..i], lines[i]);
      Prefix(lines, i);
      var next := ReadLine(p, private, tlds, lines[i]);
      if next.Failure? {
        r := Failure(next.error);
        IngestPrefixFailure(p, lines[..i + 1], lines[i + 1..]);
        return;
      }
      private, tlds := next.value.private, next.value.tlds;
      i := i + 1;
    }
    assert lines[..i] == lines;
    r := Success(tlds);
  }

  /** `parse_tld_data(data)`: the lines are those of `data.split('\n')`. */
  method ParseTldData(p: Platform, data: seq<bv8>) returns (r: Result<Table>)
    ensures r == TldData(p, data)
  {
    var lines := Split(data, NewLine);
    r := IngestLines(p, lines);
  }

  /** The building raises exactly when some line fails to decode or to encode. */
  lemma {:induction false} IngestFails(p: Platform, lines: seq<seq<bv8>>)
    ensures Ingest(p, lines).Failure? <==>
      exists i :: 0 <= i < |lines| && Classify(p, lines[i]).Failure?
    ensures Ingest(p, lines).Failure? ==> Ingest(p, lines).error == UnicodeError
    decreases |lines|
  {
    if lines != [] {
      var n := |lines|;
      var init := lines[..n - 1];
      IngestFails(p, init);
      if exists i :: 0 <= i < |init| && Classify(p, init[i]).Failure? {
        var i :| 0 <= i < |init| && Classify(p, init[i]).Failure?;
        assert lines[i] == init[i];
      }
      if exists i :: 0 <= i < n && Classify(p, lines[i]).Failure? {
        var i :| 0 <= i < n && Classify(p, lines[i]).Failure?;
        if i < n - 1 { assert init[i] == lines[i]; }
      }
    }
  }

  /** Every rule sits in the bucket of its last label, and no bucket is empty. */
  predicate Filed(tlds: Table) {
    forall key :: key in tlds ==>
      tlds[key] != map[] && forall rule :: rule in tlds[key] ==> Bucket(rule) == key
  }

  /** A step keeps the table filed. */
  lemma StepFiled(b: Builder, line: Line)
    requires Filed(b.tlds)
    ensures Filed(Step(b, line).tlds)
  {
    if line.Rule? {
      var key := Bucket(line.rule);
      var bucket := if key in b.tlds then b.tlds[key] else map[];
      var tlds := Step(b, line).tlds;
      forall k | k in tlds
        ensures tlds[k] != map[] && forall rule :: rule in tlds[k] ==> Bucket(rule) == k
      {
        if k == key {
          assert line.rule in tlds[k];
        }
      }
    }
  }

  /** The table built from any list is filed. */
  lemma {:induction false} IngestFiled(p: Platform, lines: seq<seq<bv8>>)
    requires Ingest(p, lines).Success?
    ensures Filed(Ingest(p, lines).value.tlds)
    decreases |lines|
  {
    if lines != [] {
      var init := lines[..|lines| - 1];
      IngestFiled(p, init);
      StepFiled(Ingest(p, init).value, Classify(p, lines[|lines| - 1]).value);
    }
  }

  /** A line of the list is a rule, in this encoded form. */
  predicate RuleAt(p: Platform, lines: seq<seq<bv8>>, i: int, rule: string) {
    0 <= i < |lines| && Classify(p, lines[i]) == Success(Rule(rule))
  }

  /** A line of the list is the private marker. */
  predicate MarkerAt(p: Platform, lines: seq<seq<bv8>>, j: int) {
    0 <= j < |lines| && Classify(p, lines[j]) == Success(Marker)
  }

  /** Some line before line `i` is the marker and line `i` holds the rule. */
  ghost predicate AfterMarker(p: Platform, lines: seq<seq<bv8>>, rule: string) {
    exists i, j :: j < i && MarkerAt(p, lines, j) && RuleAt(p, lines, i, rule)
  }

  /** The flag is up exactly when the marker occurs. */
  ghost predicate FlagExact(p: Platform, lines: seq<seq<bv8>>, private: bool) {
    private <==> exists j :: MarkerAt(p, lines, j)
  }

  /** Everything in the table is a rule of the list. */
  ghost predicate HoldsOnly(p: Platform, lines: seq<seq<bv8>>, tlds: Table) {
    forall key, rule :: key in tlds && rule in tlds[key] ==> exists i :: RuleAt(p, lines, i, rule)
  }

  /** Every rule of the list is in the table, under its last label. */
  ghost predicate HoldsAll(p: Platform, lines: seq<seq<bv8>>, tlds: Table) {
    forall i, rule :: RuleAt(p, lines, i, rule) ==> Bucket(rule) in tlds && rule in tlds[Bucket(rule)]
  }

  /**
   * A rule is private exactly when the marker comes before some line holding
   * it (so before its last one, whose flag is the one kept).
   */
  ghost predicate PrivateExact(p: Platform, lines: seq<seq<bv8>>, tlds: Table) {
    forall key, rule :: key in tlds && rule in tlds[key] ==>
      (tlds[key][rule] <==> AfterMarker(p, lines, rule))
  }

  /** Lines keep their meaning when the list grows; the new line is what it classifies as. */
  lemma Lift(p: Platform, lines: seq<seq<bv8>>, raw: seq<bv8>)
    ensures var all := lines + [raw];
      && (forall i, rule :: i != |lines| ==> (RuleAt(p, all, i, rule) <==> RuleAt(p, lines, i, rule)))
      && (forall j :: j != |lines| ==> (MarkerAt(p, all, j) <==> MarkerAt(p, lines, j)))
      && (forall rule :: RuleAt(p, all, |lines|, rule) <==> Classify(p, raw) == Success(Rule(rule)))
      && (MarkerAt(p, all, |lines|) <==> Classify(p, raw) == Success(Marker))
  {
    var all := lines + [raw];
    assert all[|lines|] == raw;
    assert forall i :: 0 <= i < |lines| ==> all[i] == lines[i];
  }

  lemma FlagSnoc(p: Platform, lines: seq<seq<bv8>>, raw: seq<bv8>, b: Builder)
    requires FlagExact(p, lines, b.private) && Classify(p, raw).Success?
    ensures FlagExact(p, lines + [raw], Step(b, Classify(p, raw).value).private)
  {
    Lift(p, lines, raw);
    if exists j :: MarkerAt(p, lines + [raw], j) {
      var j :| MarkerAt(p, lines + [raw], j);
      if j != |lines| { assert MarkerAt(p, lines, j); }
    }
    if b.private {
      var j :| MarkerAt(p, lines, j);
      assert MarkerAt(p, lines + [raw], j);
    }
  }

  /** A rule of the list is still a rule of the list grown by one line. */
  lemma RuleAtLift(p: Platform, lines: seq<seq<bv8>>, raw: seq<bv8>, i: int, rule: string)
    requires RuleAt(p, lines, i, rule)
    ensures RuleAt(p, lines + [raw], i, rule)
  {
    assert (lines + [raw])[i] == lines[i];
  }

  /** The new line, when it is a rule, is a rule of the grown list. */
  lemma RuleAtLast(p: Platform, lines: seq<seq<bv8>>, raw: seq<bv8>, rule: string)
    requires Classify(p, raw) == Success(Rule(rule))
    ensures RuleAt(p, lines + [raw], |lines|, rule)
  {
    assert (lines + [raw])[|lines|] == raw;
  }

  lemma HoldsOnlySnoc(p: Platform, lines: seq<seq<bv8>>, raw: seq<bv8>, b: Builder)
    requires HoldsOnly(p, lines, b.tlds) && Classify(p, raw).Success?
    ensures HoldsOnly(p, lines + [raw], Step(b, Classify(p, raw).value).tlds)
  {
    var line := Classify(p, raw).value;
    var tlds := Step(b, line).tlds;
    forall key, rule | key in tlds && rule in tlds[key]
      ensures exists i :: RuleAt(p, lines + [raw], i, rule)
    {
      if line.Rule? && rule == line.rule {
        RuleAtLast(p, lines, raw, rule);
      } else {
        assert key in b.tlds && rule in b.tlds[key];
        var i :| RuleAt(p, lines, i, rule);
        RuleAtLift(p, lines, raw, i, rule);
      }
    }
  }

  lemma HoldsAllSnoc(p: Platform, lines: seq<seq<bv8>>, raw: seq<bv8>, b: Builder)
    requires HoldsAll(p, lines, b.tlds) && Classify(p, raw).Success?
    ensures HoldsAll(p, lines + [raw], Step(b, Classify(p, raw).value).tlds)
  {
    Lift(p, lines, raw);
  }

  /** The marker-before relation on a longer list. */
  lemma AfterMarkerSnoc(p: Platform, lines: seq<seq<bv8>>, raw: seq<bv8>, rule: string)
    ensures Classify(p, raw) != Success(Rule(rule)) ==>
      (AfterMarker(p, lines + [raw], rule) <==> AfterMarker(p, lines, rule))
    ensures Classify(p, raw) == Success(Rule(rule)) ==>
      (AfterMarker(p, lines + [raw], rule) <==> exists j :: MarkerAt(p, lines, j))
  {
    Lift(p, lines, raw);
    var all := lines + [raw];
    var n := |lines|;
    if AfterMarker(p, all, rule) {
      var i, j :| j < i && MarkerAt(p, all, j) && RuleAt(p, all, i, rule);
      assert j != n && MarkerAt(p, lines, j);
      if i != n {
        assert RuleAt(p, lines, i, rule);
      }
    }
    if AfterMarker(p, lines, rule) {
      var i, j :| j < i && MarkerAt(p, lines, j) && RuleAt(p, lines, i, rule);
      assert MarkerAt(p, all, j) && RuleAt(p, all, i, rule);
    }
    if Classify(p, raw) == Success(Rule(rule)) && exists j :: MarkerAt(p, lines, j) {
      var j :| MarkerAt(p, lines, j);
      assert MarkerAt(p, all, j) && RuleAt(p, all, n, rule);
    }
  }

  lemma PrivateExactSnoc(p: Platform, lines: seq<seq<bv8>>, raw: seq<bv8>, b: Builder)
    requires PrivateExact(p, lines, b.tlds) && FlagExact(p, lines, b.private) && Filed(b.tlds)
    requires Classify(p, raw).Success?
    ensures PrivateExact(p, lines + [raw], Step(b, Classify(p, raw).value).tlds)
  {
    var tlds := Step(b, Classify(p, raw).value).tlds;
    forall key, rule | key in tlds && rule in tlds[key]
      ensures tlds[key][rule] <==> AfterMarker(p, lines + [raw], rule)
    {
      PrivateEntrySnoc(p, lines, raw, b, key, rule);
    }
  }

  /** `PrivateExactSnoc` for one entry of the new table. */
  lemma PrivateEntrySnoc(p: Platform, lines: seq<seq<bv8>>, raw: seq<bv8>, b: Builder, key: string, rule: string)
    requires PrivateExact(p, lines, b.tlds) && FlagExact(p, lines, b.private) && Filed(b.tlds)
    requires Classify(p, raw).Success?
    requires var tlds := Step(b, Classify(p, raw).value).tlds; key in tlds && rule in tlds[key]
    ensures var tlds := Step(b, Classify(p, raw).value).tlds;
      tlds[key][rule] <==> AfterMarker(p, lines + [raw], rule)
  {
    AfterMarkerSnoc(p, lines, raw, rule);
    if Classify(p, raw) == Success(Rule(rule)) {
      NewRuleEntry(b, rule, key);
    } else {
      OldEntry(b, Classify(p, raw).value, rule, key);
    }
  }

  /** The rule a step files carries the flag, under its bucket. */
  lemma NewRuleEntry(b: Builder, rule: string, key: string)
    requires Filed(b.tlds)
    requires var tlds := Step(b, Rule(rule)).tlds; key in tlds && rule in tlds[key]
    ensures Step(b, Rule(rule)).tlds[key][rule] == b.private
  {
  }

  /** Any other entry after a step was already in the table, unchanged. */
  lemma OldEntry(b: Builder, line: Line, rule: string, key: string)
    requires line != Rule(rule)
    requires var tlds := Step(b, line).tlds; key in tlds && rule in tlds[key]
    ensures key in b.tlds && rule in b.tlds[key]
    ensures Step(b, line).tlds[key][rule] == b.tlds[key][rule]
  {
  }

  /**
   * The table built from a list holds exactly its rules, each under its last
   * label and marked private exactly when the marker comes before it; the
   * flag is up exactly when the marker occurs.
   */
  lemma {:induction false} IngestDescribes(p: Platform, lines: seq<seq<bv8>>)
    requires Ingest(p, lines).Success?
    ensures var b := Ingest(p, lines).value;
      && FlagExact(p, lines, b.private) && HoldsOnly(p, lines, b.tlds)
      && HoldsAll(p, lines, b.tlds) && PrivateExact(p, lines, b.tlds)
    decreases |lines|
  {
    if lines != [] {
      var n := |lines|;
      var init := lines[..n - 1];
      var raw := lines[n - 1];
      IngestDescribes(p, init);
      IngestFiled(p, init);
      InitLast(lines);
      IngestSnoc(p, init, raw);
      var b := Ingest(p, init).value;
      FlagSnoc(p, init, raw, b);
      HoldsOnlySnoc(p, init, raw, b);
      HoldsAllSnoc(p, init, raw, b);
      PrivateExactSnoc(p, init, raw, b);
    }
  }

  /**
   * The table `parse_tld_data` returns files every rule of the list under its
   * last label and holds nothing else, and marks exactly the rules that occur
   * after the private marker as private.
   */
  lemma TldDataContents(p: Platform, data: seq<bv8>)
    requires TldData(p, data).Success?
    ensures var lines := Split(data, NewLine);
      var tlds := TldData(p, data).value;
      && Filed(tlds) && HoldsOnly(p, lines, tlds) && HoldsAll(p, lines, tlds)
      && PrivateExact(p, lines, tlds)
  {
    var lines := Split(data, NewLine);
    IngestFiled(p, lines);
    IngestDescribes(p, lines);
  }

  /**
   * An ASCII rule whose labels have 1 to 63 characters is stored as it is
   * (`*.ck` and `!www.ck` included), under its last label.
   */
  lemma AsciiRuleVerbatim(p: Platform, raw: seq<bv8>, line: string)
    requires p.utf8Decode(Strip(raw, IsByteSpace)) == Some(line)
    requires line != "" && !("//" <= line) && AllAscii(line)
    requires forall i :: 0 <= i < |HostLabels(line)| ==> 0 < |HostLabels(line)[i]| < 64
    ensures Classify(p, raw) == Success(Rule(line))
  {
    EncodeAscii(p, line);
  }
}
