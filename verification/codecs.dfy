/**
 * The codecs the domain tools call: `unicode.lower()`, the `idna` codec of
 * Python 2.7 (`encodings/idna.py`) and UTF-8 decoding. The parts that are plain
 * string handling (splitting on the four IDNA dots, the ASCII fast paths, the
 * 1..63 label-length check, a kept trailing dot) are modelled here; nameprep,
 * punycode, non-ASCII case mapping, UTF-8 decoding and `urlparse` are services
 * of the runtime, passed in as a `Platform`.
 */
module Codecs {
  import opened Wrappers
  import opened Text

  /** Runtime services outside the model. `None` stands for a raised `UnicodeError`. */
  datatype Platform = Platform(
    lowerOther: char -> char,                  // `unicode.lower()` on one non-ASCII character
    labelToAscii: string -> Option<string>,    // IDNA ToASCII of a label holding a non-ASCII character
    labelToUnicode: string -> Option<string>,  // IDNA ToUnicode of a non-ASCII or `xn--` label
    utf8Decode: seq<bv8> -> Option<string>,    // `bytes.decode('utf8')`
    urlHostname: string -> Option<string>)     // `urlparse(s).hostname`

  /** `unicode.lower()`: ASCII letters are mapped here, other characters by the runtime. */
  function LowerChar(p: Platform, c: char): (r: char)
    ensures IsAscii(c) ==> IsAscii(r) && !('A' <= r <= 'Z')
    ensures IsAscii(c) && !('A' <= c <= 'Z') ==> r == c
  {
    if IsAscii(c) then AsciiLower(c) else p.lowerOther(c)
  }

  function Lower(p: Platform, s: string): (r: string)
    ensures |r| == |s| && forall i :: 0 <= i < |s| ==> r[i] == LowerChar(p, s[i])
  {
    seq(|s|, i requires 0 <= i < |s| => LowerChar(p, s[i]))
  }

  /** Lower-casing an ASCII string that has no upper-case letter changes nothing. */
  lemma LowerOfLower(p: Platform, s: string)
    requires AllAscii(s) && forall i :: 0 <= i < |s| ==> !('A' <= s[i] <= 'Z')
    ensures Lower(p, s) == s
  {
  }

  /** The label separators of IDNA: full stop and its three ideographic/full-width forms. */
  predicate IsDot(c: char) {
    c == '.' || c == '\U{3002}' || c == '\U{FF0E}' || c == '\U{FF61}'
  }

  /** `dots.split(s)` in `encodings/idna.py`. */
  function SplitDots(s: string): (r: seq<string>)
    ensures |r| >= 1
    decreases |s|
  {
    if |s| == 0 then [""]
    else
      var rest := SplitDots(s[1..]);
      if IsDot(s[0]) then [""] + rest
      else [[s[0]] + rest[0]] + rest[1..]
  }

  /** On ASCII text the four dots are just `.`. */
  lemma {:induction false} SplitDotsAscii(s: string)
    requires AllAscii(s)
    ensures SplitDots(s) == Split(s, '.')
    decreases |s|
  {
    if |s| > 0 {
      assert AllAscii(s[1..]) by {
        forall i | 0 <= i < |s[1..]| ensures IsAscii(s[1..][i]) { assert s[1..][i] == s[i + 1]; }
      }
      SplitDotsAscii(s[1..]);
      assert IsDot(s[0]) <==> s[0] == '.' by { assert IsAscii(s[0]); }
    }
  }

  /** Text holding none of the four IDNA dots. */
  predicate NoDots(s: string) {
    forall i :: 0 <= i < |s| ==> !IsDot(s[i])
  }

  /** Text without IDNA dots is a single label. */
  lemma {:induction false} SplitDotsNoDots(s: string)
    requires NoDots(s)
    ensures SplitDots(s) == [s]
    decreases |s|
  {
    if |s| > 0 {
      assert NoDots(s[1..]) by {
        forall i | 0 <= i < |s[1..]| ensures !IsDot(s[1..][i]) { assert s[1..][i] == s[i + 1]; }
      }
      SplitDotsNoDots(s[1..]);
      assert [s[0]] + s[1..] == s;
    }
  }

  /** A label, any of the IDNA dots, then more text: the label is split off first. */
  lemma {:induction false} SplitDotsAfterLabel(a: string, dot: char, rest: string)
    requires NoDots(a) && IsDot(dot)
    ensures SplitDots(a + [dot] + rest) == [a] + SplitDots(rest)
    decreases |a|
  {
    var s := a + [dot] + rest;
    if |a| == 0 {
      assert s == [dot] + rest && s[1..] == rest;
    } else {
      assert NoDots(a[1..]) by {
        forall i | 0 <= i < |a[1..]| ensures !IsDot(a[1..][i]) { assert a[1..][i] == a[i + 1]; }
      }
      SplitDotsAfterLabel(a[1..], dot, rest);
      assert s[1..] == a[1..] + [dot] + rest;
      assert s[0] == a[0] && !IsDot(s[0]);
      assert [a[0]] + a[1..] == a;
    }
  }

  /** ToASCII of one label: an ASCII label passes unchanged when it has 1 to 63 characters. */
  function LabelToAscii(p: Platform, part: string): (r: Option<string>)
    ensures AllAscii(part) ==> (r.Some? <==> 0 < |part| < 64)
    ensures AllAscii(part) && r.Some? ==> r.value == part
  {
    if AllAscii(part) then
      if 0 < |part| < 64 then Some(part) else None
    else p.labelToAscii(part)
  }

  /** ToASCII of every label, failing on the first label that fails. */
  function LabelsToAscii(p: Platform, labels: seq<string>): (r: Option<seq<string>>)
    ensures r.Some? <==> forall i :: 0 <= i < |labels| ==> LabelToAscii(p, labels[i]).Some?
    ensures r.Some? ==> (|r.value| == |labels|
      && forall i :: 0 <= i < |labels| ==> r.value[i] == LabelToAscii(p, labels[i]).value)
    decreases |labels|
  {
    if |labels| == 0 then Some([])
    else
      match LabelToAscii(p, labels[0])
      case None => None
      case Some(l) =>
        match LabelsToAscii(p, labels[1..])
        case None => None
        case Some(ls) => Some([l] + ls)
  }

  /** `s.encode('idna')`; `None` stands for `UnicodeError`. */
  function IdnaEncode(p: Platform, s: string): Option<string> {
    if s == "" then Some("")
    else
      var labels := SplitDots(s);
      var body := DropTrailingEmpty(labels);
      match LabelsToAscii(p, body)
      case None => None
      case Some(encoded) => Some(Join(encoded, '.') + (if body == labels then "" else "."))
  }

  /** ToUnicode of one label: an ASCII label without the `xn--` prefix passes unchanged. */
  function LabelToUnicode(p: Platform, part: string): (r: Option<string>)
    ensures AllAscii(part) && !("xn--" <= part) ==> r == Some(part)
  {
    if AllAscii(part) && !("xn--" <= part) then Some(part) else p.labelToUnicode(part)
  }

  function LabelsToUnicode(p: Platform, labels: seq<string>): (r: Option<seq<string>>)
    ensures r.Some? <==> forall i :: 0 <= i < |labels| ==> LabelToUnicode(p, labels[i]).Some?
    ensures r.Some? ==> (|r.value| == |labels|
      && forall i :: 0 <= i < |labels| ==> r.value[i] == LabelToUnicode(p, labels[i]).value)
    decreases |labels|
  {
    if |labels| == 0 then Some([])
    else
      match LabelToUnicode(p, labels[0])
      case None => None
      case Some(l) =>
        match LabelsToUnicode(p, labels[1..])
        case None => None
        case Some(ls) => Some([l] + ls)
  }

  /** `u.decode('idna')` on a unicode string; `None` stands for `UnicodeError`. */
  function IdnaDecode(p: Platform, s: string): Option<string> {
    if s == "" then Some("")
    else
      var labels := SplitDots(s);
      var body := DropTrailingEmpty(labels);
      match LabelsToUnicode(p, body)
      case None => None
      case Some(decoded) => Some(Join(decoded, '.') + (if body == labels then "" else "."))
  }

  /** `b.decode('idna')` on a byte string, which must be ASCII. */
  function IdnaDecodeBytes(p: Platform, s: string): (r: Option<string>)
    ensures !AllAscii(s) ==> r.None?
  {
    if AllAscii(s) then IdnaDecode(p, s) else None
  }

  /**
   * The `idna` codec leaves an ASCII host name unchanged exactly when each
   * part (bar a final empty one) has 1 to 63 characters, and raises otherwise.
   */
  lemma EncodeAscii(p: Platform, s: string)
    requires AllAscii(s)
    ensures IdnaEncode(p, s) ==
      if s == "" || forall i :: 0 <= i < |HostLabels(s)| ==> 0 < |HostLabels(s)[i]| < 64
      then Some(s) else None
  {
    if s != "" {
      SplitDotsAscii(s);
      SplitAscii(s, '.');
      var body := HostLabels(s);
      assert forall i :: 0 <= i < |body| ==> AllAscii(body[i]) by {
        forall i | 0 <= i < |body| ensures AllAscii(body[i]) {
          assert body[i] == Split(s, '.')[i];
        }
      }
      var r := LabelsToAscii(p, body);
      if r.Some? {
        assert r.value == body;
        HostLabelsJoin(s);
      }
    }
  }

  /**
   * Encoding then decoding an ASCII host name gives it back when its labels
   * have 1 to 63 characters and none starts with the `xn--` prefix.
   */
  lemma RoundTripAscii(p: Platform, s: string)
    requires AllAscii(s)
    requires forall i :: 0 <= i < |HostLabels(s)| ==> 0 < |HostLabels(s)[i]| < 64
    requires forall i :: 0 <= i < |HostLabels(s)| ==> !("xn--" <= HostLabels(s)[i])
    ensures IdnaEncode(p, s) == Some(s)
    ensures IdnaDecodeBytes(p, s) == Some(s)
  {
    EncodeAscii(p, s);
    if s != "" {
      SplitDotsAscii(s);
      SplitAscii(s, '.');
      var body := HostLabels(s);
      assert forall i :: 0 <= i < |body| ==> AllAscii(body[i]) by {
        forall i | 0 <= i < |body| ensures AllAscii(body[i]) {
          assert body[i] == Split(s, '.')[i];
        }
      }
      var r := LabelsToUnicode(p, body);
      assert r.value == body;
      HostLabelsJoin(s);
    }
  }
}
