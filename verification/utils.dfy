/**
 * `normalize_domain` of `domaintools/utils.py`: a domain given as text or as
 * UTF-8 bytes, cut at its first colon, lower-cased and passed through the
 * `idna` codec and back.
 */
module Utils {
  import opened Wrappers
  import opened Text
  import opened Codecs
  import Domains

  /** What `normalize_domain` accepts: text, or bytes to decode as UTF-8. */
  datatype DomainInput = TextInput(text: string) | BytesInput(bytes: seq<bv8>)

  /** `normalize_domain(domain_string)`; any codec error is a `UnicodeError`. */
  function NormalizeDomain(p: Platform, input: DomainInput): (r: Result<string>)
    ensures r.Failure? ==> r.error == UnicodeError
  {
    var text :- match input
      case TextInput(s) => Success(s)
      case BytesInput(b) => OrUnicodeError(p.utf8Decode(b));
    var host := BeforeFirst(text, ':');
    var encoded :- OrUnicodeError(IdnaEncode(p, Lower(p, host)));
    OrUnicodeError(IdnaDecodeBytes(p, encoded))
  }

  /** Text without the character is its own prefix before that character. */
  lemma {:induction false} BeforeFirstAbsent(s: string, c: char)
    requires !Has(s, c)
    ensures BeforeFirst(s, c) == s
    decreases |s|
  {
    if |s| > 0 {
      assert s[0] != c;
      assert !Has(s[1..], c) by {
        forall i | 0 <= i < |s[1..]| ensures s[1..][i] != c { assert s[1..][i] == s[i + 1]; }
      }
      BeforeFirstAbsent(s[1..], c);
      assert [s[0]] + s[1..] == s;
    }
  }

  /** Everything from the first colon on is ignored. */
  lemma NormalizeCutsAtFirstColon(p: Platform, s: string)
    ensures NormalizeDomain(p, TextInput(s)) == NormalizeDomain(p, TextInput(BeforeFirst(s, ':')))
  {
    BeforeFirstAbsent(BeforeFirst(s, ':'), ':');
  }

  /** Bytes are decoded, then treated as the text they decode to. */
  lemma NormalizeBytes(p: Platform, b: seq<bv8>)
    ensures p.utf8Decode(b).None? ==> NormalizeDomain(p, BytesInput(b)) == Failure(UnicodeError)
    ensures p.utf8Decode(b).Some? ==>
      NormalizeDomain(p, BytesInput(b)) == NormalizeDomain(p, TextInput(p.utf8Decode(b).value))
  {
  }

  /**
   * An ASCII domain without a colon, whose lower-cased labels have 1 to 63
   * characters and none starts with `xn--`, normalises to its lower-case form.
   */
  lemma NormalizeAscii(p: Platform, s: string)
    requires AllAscii(s) && !Has(s, ':')
    requires var l := Lower(p, s);
      && (forall i :: 0 <= i < |HostLabels(l)| ==> 0 < |HostLabels(l)[i]| < 64)
      && (forall i :: 0 <= i < |HostLabels(l)| ==> !("xn--" <= HostLabels(l)[i]))
    ensures NormalizeDomain(p, TextInput(s)) == Success(Lower(p, s))
  {
    BeforeFirstAbsent(s, ':');
    var l := Lower(p, s);
    assert AllAscii(l);
    RoundTripAscii(p, l);
  }

  /** On such domains normalising twice is normalising once. */
  lemma NormalizeIdempotentAscii(p: Platform, s: string)
    requires AllAscii(s) && !Has(s, ':')
    requires var l := Lower(p, s);
      && (forall i :: 0 <= i < |HostLabels(l)| ==> 0 < |HostLabels(l)[i]| < 64)
      && (forall i :: 0 <= i < |HostLabels(l)| ==> !("xn--" <= HostLabels(l)[i]))
    ensures NormalizeDomain(p, TextInput(s)).Success?
    ensures var once := NormalizeDomain(p, TextInput(s)).value;
      NormalizeDomain(p, TextInput(once)) == Success(once)
  {
    NormalizeAscii(p, s);
    var l := Lower(p, s);
    assert AllAscii(l) && !Has(l, ':');
    LowerOfLower(p, l);
    NormalizeAscii(p, l);
  }

  /**
   * `normalize_domain` cuts at the first colon where the `Domain` constructor
   * cuts at the last: `a:b:c` keeps `a` in one and `a:b` in the other.
   */
  lemma FirstColonVersusLastColon()
    ensures BeforeFirst("a:b:c", ':') == "a"
    ensures Domains.StripPort("a:b:c") == "a:b"
  {
    var s := "a:b:c";
    assert s[1] == ':';
    assert s[..1] == "a";
    assert s[3] == ':' && s[..3] == "a:b";
    assert !Has(s[4..], ':') by { assert s[4..] == "c"; }
  }
}
