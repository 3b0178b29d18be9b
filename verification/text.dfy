/**
 * The Python string operations the domain tools rely on: `str.split` on one
 * character, `str.join`, `rsplit(c, 1)`, `partition(c)`, `strip`, `startswith`,
 * `in` on substrings and `re.split(r'\s+', ...)`.
 */
module Text {

  /** `c in s` for a single character (or byte). */
  predicate Has<T(==)>(s: seq<T>, c: T) {
    exists i :: 0 <= i < |s| && s[i] == c
  }

  /** `sub in s` for a substring. */
  predicate Contains(s: string, sub: string)
    decreases |s|
  {
    if |s| < |sub| then false
    else sub <= s || Contains(s[1..], sub)
  }

  /** A text holding `sub` holds its first character. */
  lemma {:induction false} ContainsHas(s: string, sub: string)
    requires sub != []
    ensures Contains(s, sub) ==> Has(s, sub[0])
    decreases |s|
  {
    if |s| >= |sub| && !(sub <= s) {
      ContainsHas(s[1..], sub);
      if Has(s[1..], sub[0]) {
        var i :| 0 <= i < |s[1..]| && s[1..][i] == sub[0];
        assert s[i + 1] == sub[0];
      }
    } else if |s| >= |sub| {
      assert s[0] == sub[0];
    }
  }

  /** `s.split(sep)`: always at least one piece, and no piece holds `sep`. */
  function Split<T(==)>(s: seq<T>, sep: T): (r: seq<seq<T>>)
    ensures |r| >= 1
    ensures forall i :: 0 <= i < |r| ==> !Has(r[i], sep)
    decreases |s|
  {
    if |s| == 0 then [[]]
    else
      var rest := Split(s[1..], sep);
      if s[0] == sep then [[]] + rest
      else
        assert !Has(rest[0], sep);
        [[s[0]] + rest[0]] + rest[1..]
  }

  /** `sep.join(parts)`. */
  function Join(parts: seq<string>, sep: char): string
    decreases |parts|
  {
    if |parts| == 0 then ""
    else if |parts| == 1 then parts[0]
    else parts[0] + [sep] + Join(parts[1..], sep)
  }

  /** Drops one trailing empty piece, as `if parts[-1] == '': parts.pop()` does. */
  function DropTrailingEmpty(parts: seq<string>): (r: seq<string>)
    ensures r == parts || (parts != [] && parts[|parts| - 1] == "" && r == parts[..|parts| - 1])
    ensures parts != [] && parts[|parts| - 1] == "" ==> |r| == |parts| - 1
  {
    if |parts| > 0 && parts[|parts| - 1] == "" then parts[..|parts| - 1] else parts
  }

  /** `s.split('.')` less one trailing empty label: the labels of a host name. */
  function HostLabels(s: string): seq<string> {
    DropTrailingEmpty(Split(s, '.'))
  }

  /**
   * The labels of a host name joined by dots, plus the final dot when the text
   * ends in one, give back the text; no label holds a dot, and the empty text
   * has no labels.
   */
  lemma HostLabelsJoin(s: string)
    ensures s == "" ==> HostLabels(s) == []
    ensures s != "" ==> Join(HostLabels(s), '.') + (if s[|s| - 1] == '.' then "." else "") == s
    ensures s != "" ==> (HostLabels(s) != Split(s, '.') <==> s[|s| - 1] == '.')
    ensures forall i :: 0 <= i < |HostLabels(s)| ==> !Has(HostLabels(s)[i], '.')
  {
    var parts := Split(s, '.');
    var n := |parts|;
    JoinSplit(s, '.');
    var labels := HostLabels(s);
    assert forall i :: 0 <= i < |labels| ==> labels[i] == parts[i];
    if s != "" {
      if n == 1 {
        assert Join(parts, '.') == parts[0];
        assert labels == parts;
        assert s[|s| - 1] != '.' by { assert !Has(parts[0], '.'); }
      } else {
        var init, last := parts[..n - 1], parts[n - 1];
        assert parts == init + [last];
        JoinAppend(init, [last], '.');
        assert s == Join(init, '.') + "." + last;
        if last == "" {
          assert labels == init;
        } else {
          assert labels == parts;
          assert s[|s| - 1] == last[|last| - 1];
          assert s[|s| - 1] != '.' by { assert !Has(last, '.'); }
        }
      }
    }
  }

  /** The labels are the pieces of the split, less at most one final empty piece. */
  lemma HostLabelsSplit(s: string)
    ensures HostLabels(s) == Split(s, '.') || HostLabels(s) + [""] == Split(s, '.')
  {
    var parts := Split(s, '.');
    if HostLabels(s) != parts {
      assert parts[..|parts| - 1] + [parts[|parts| - 1]] == parts;
    }
  }

  /** Reading the labels back from their join gives them back. */
  lemma HostLabelsOfJoin(parts: seq<string>)
    requires |parts| >= 1 && parts[|parts| - 1] != ""
    requires forall i :: 0 <= i < |parts| ==> !Has(parts[i], '.')
    ensures HostLabels(Join(parts, '.')) == parts
  {
    SplitJoin(parts, '.');
  }

  /** The pieces of a split of an ASCII string are ASCII. */
  lemma {:induction false} SplitAscii(s: string, sep: char)
    requires AllAscii(s)
    ensures forall i :: 0 <= i < |Split(s, sep)| ==> AllAscii(Split(s, sep)[i])
    decreases |s|
  {
    if |s| > 0 {
      SplitAscii(s[1..], sep);
    }
  }

  /** Joining the pieces of a split gives back the string. */
  lemma {:induction false} JoinSplit(s: string, sep: char)
    ensures Join(Split(s, sep), sep) == s
    decreases |s|
  {
    if |s| > 0 {
      JoinSplit(s[1..], sep);
      var rest := Split(s[1..], sep);
      if s[0] != sep && |rest| > 1 {
        assert Split(s, sep)[1..] == rest[1..];
      }
    }
  }

  /** Splitting a join of separator-free pieces gives back the pieces. */
  lemma {:induction false} SplitJoin(parts: seq<string>, sep: char)
    requires |parts| >= 1
    requires forall i :: 0 <= i < |parts| ==> !Has(parts[i], sep)
    ensures Split(Join(parts, sep), sep) == parts
    decreases |parts|, |parts[0]|
  {
    var p := parts[0];
    if |p| == 0 {
      if |parts| > 1 {
        SplitJoin(parts[1..], sep);
        assert Join(parts, sep) == [sep] + Join(parts[1..], sep);
        assert ([sep] + Join(parts[1..], sep))[1..] == Join(parts[1..], sep);
        assert [""] + parts[1..] == parts;
      }
    } else {
      var parts' := [p[1..]] + parts[1..];
      assert !Has(p[1..], sep) by {
        forall i | 0 <= i < |p[1..]| ensures p[1..][i] != sep {
          assert p[1..][i] == p[i + 1];
        }
      }
      assert p[0] != sep by { assert p[0] == parts[0][0]; }
      forall i | 0 <= i < |parts'| ensures !Has(parts'[i], sep) {
        if i > 0 { assert parts'[i] == parts[i]; }
      }
      SplitJoin(parts', sep);
      var j := Join(parts, sep);
      if |parts| == 1 {
        assert j == p && j[1..] == Join(parts', sep);
      } else {
        assert Join(parts', sep) == p[1..] + [sep] + Join(parts[1..], sep);
        assert j[1..] == Join(parts', sep);
      }
      assert [p[0]] + p[1..] == p;
      assert [[p[0]] + p[1..]] + parts[1..] == parts;
    }
  }

  /** Joining two non-empty lists is joining their joins. */
  lemma {:induction false} JoinAppend(a: seq<string>, b: seq<string>, sep: char)
    requires |a| >= 1 && |b| >= 1
    ensures Join(a + b, sep) == Join(a, sep) + [sep] + Join(b, sep)
    decreases |a|
  {
    if |a| > 1 {
      JoinAppend(a[1..], b, sep);
      assert (a + b)[1..] == a[1..] + b;
    } else {
      assert (a + b)[1..] == b;
    }
  }

  /** `s.rsplit(c, 1)[0]` for an `s` holding `c`: everything before the last `c`. */
  function BeforeLast(s: string, c: char): (r: string)
    requires Has(s, c)
    ensures |r| < |s| && r == s[..|r|] && s[|r|] == c
    ensures !Has(s[|r| + 1..], c)
    decreases |s|
  {
    if s[|s| - 1] == c then s[..|s| - 1]
    else
      var r := BeforeLast(s[..|s| - 1], c);
      assert s[|r| + 1..] == s[..|s| - 1][|r| + 1..] + [s[|s| - 1]];
      r
  }

  /** `s.partition(c)[0]`: everything before the first `c`, or all of `s`. */
  function BeforeFirst(s: string, c: char): (r: string)
    ensures |r| <= |s| && r == s[..|r|] && !Has(r, c)
    ensures |r| < |s| <==> Has(s, c)
    ensures |r| < |s| ==> s[|r|] == c
    decreases |s|
  {
    if |s| == 0 then ""
    else if s[0] == c then ""
    else
      var r := BeforeFirst(s[1..], c);
      assert Has(s, c) ==> Has(s[1..], c) by {
        if Has(s, c) {
          var i :| 0 <= i < |s| && s[i] == c;
          assert s[1..][i - 1] == c;
        }
      }
      assert !Has([s[0]] + r, c) by {
        forall i | 0 <= i < |r| + 1 ensures ([s[0]] + r)[i] != c {
          if i > 0 { assert ([s[0]] + r)[i] == r[i - 1]; }
        }
      }
      [s[0]] + r
  }

  /** Characters below U+0080. */
  predicate IsAscii(c: char) { c < '\U{0080}' }

  predicate AllAscii(s: string) {
    forall i :: 0 <= i < |s| ==> IsAscii(s[i])
  }

  /** `unicode.lower()` on an ASCII character. */
  function AsciiLower(c: char): (r: char)
    requires IsAscii(c)
    ensures IsAscii(r) && !('A' <= r <= 'Z')
    ensures 'A' <= c <= 'Z' ==> r as int == c as int + 32
    ensures !('A' <= c <= 'Z') ==> r == c
  {
    if 'A' <= c <= 'Z' then (c as int + 32) as char else c
  }

  /** The characters that `\s` matches in a Python 2 pattern compiled without `re.UNICODE`. */
  predicate IsReSpace(c: char) {
    c == ' ' || c == '\t' || c == '\n' || c == '\r' || c == '\U{000B}' || c == '\U{000C}'
  }

  /** The characters `unicode.strip()` removes (Python 2.7's `Py_UNICODE_ISSPACE`). */
  predicate IsUnicodeSpace(c: char) {
    || '\U{0009}' <= c <= '\U{000D}'
    || '\U{001C}' <= c <= '\U{0020}'
    || c == '\U{0085}' || c == '\U{00A0}' || c == '\U{1680}' || c == '\U{180E}'
    || '\U{2000}' <= c <= '\U{200A}'
    || c == '\U{2028}' || c == '\U{2029}' || c == '\U{202F}' || c == '\U{205F}' || c == '\U{3000}'
  }

  /** Drops the leading elements that `space` picks out. */
  function TrimStart<T>(s: seq<T>, space: T -> bool): (r: seq<T>)
    ensures |r| <= |s| && r == s[|s| - |r|..]
    ensures r != [] ==> !space(r[0])
    ensures forall i :: 0 <= i < |s| - |r| ==> space(s[i])
    decreases |s|
  {
    if |s| > 0 && space(s[0]) then TrimStart(s[1..], space) else s
  }

  /** Drops the trailing elements that `space` picks out. */
  function TrimEnd<T>(s: seq<T>, space: T -> bool): (r: seq<T>)
    ensures |r| <= |s| && r == s[..|r|]
    ensures r != [] ==> !space(r[|r| - 1])
    ensures forall i :: |r| <= i < |s| ==> space(s[i])
    decreases |s|
  {
    if |s| > 0 && space(s[|s| - 1]) then TrimEnd(s[..|s| - 1], space) else s
  }

  /** `strip()` with the given notion of white space. */
  function Strip<T>(s: seq<T>, space: T -> bool): seq<T> {
    TrimEnd(TrimStart(s, space), space)
  }

  /**
   * `re.split(r'\s+', s)`: the pieces between maximal runs of white space. A
   * leading or trailing run yields an empty first or last piece.
   */
  function SplitOnSpaceRuns(s: string): (r: seq<string>)
    ensures |r| >= 1
    ensures forall i, j :: 0 <= i < |r| && 0 <= j < |r[i]| ==> !IsReSpace(r[i][j])
    ensures forall i :: 0 < i < |r| - 1 ==> r[i] != ""
    ensures |s| > 0 && !IsReSpace(s[0]) ==> r[0] != ""
    ensures |s| > 0 && !IsReSpace(s[|s| - 1]) ==> r[|r| - 1] != ""
    decreases |s|
  {
    if |s| == 0 then [""]
    else if IsReSpace(s[0]) then
      if |s| > 1 && IsReSpace(s[1]) then SplitOnSpaceRuns(s[1..])
      else [""] + SplitOnSpaceRuns(s[1..])
    else
      var rest := SplitOnSpaceRuns(s[1..]);
      var r := [[s[0]] + rest[0]] + rest[1..];
      assert forall i :: 1 <= i < |r| ==> r[i] == rest[i];
      r
  }

  /** Every character `\s` matches, turned into a plain space. */
  function Blanked(s: string): (r: string)
    ensures |r| == |s|
    ensures forall i :: 0 <= i < |s| ==> r[i] == if IsReSpace(s[i]) then ' ' else s[i]
  {
    seq(|s|, i requires 0 <= i < |s| => if IsReSpace(s[i]) then ' ' else s[i])
  }

  /** Each run of spaces shortened to one space. */
  function Squeezed(t: string): string
    decreases |t|
  {
    if |t| == 0 then ""
    else if |t| >= 2 && t[0] == ' ' && t[1] == ' ' then Squeezed(t[1..])
    else [t[0]] + Squeezed(t[1..])
  }

  /** Joining pieces after putting one more character in front of the first. */
  lemma JoinConsFirst(c: char, parts: seq<string>, sep: char)
    requires |parts| >= 1
    ensures Join([[c] + parts[0]] + parts[1..], sep) == [c] + Join(parts, sep)
  {
    var q := [[c] + parts[0]] + parts[1..];
    if |parts| > 1 {
      assert q[1..] == parts[1..];
    }
  }

  /**
   * The pieces of `re.split(r'\s+', s)`, joined by single spaces, are the
   * text with each run of white space turned into one space.
   */
  lemma {:induction false} SplitOnSpaceRunsJoin(s: string)
    ensures Join(SplitOnSpaceRuns(s), ' ') == Squeezed(Blanked(s))
    decreases |s|
  {
    if |s| > 0 {
      var b := Blanked(s);
      var rest := Blanked(s[1..]);
      assert b[1..] == rest;
      SplitOnSpaceRunsJoin(s[1..]);
      var r := SplitOnSpaceRuns(s[1..]);
      if IsReSpace(s[0]) {
        if |s| > 1 && IsReSpace(s[1]) {
          assert b[0] == ' ' && b[1] == ' ';
        } else {
          assert |rest| > 0 ==> rest[0] != ' ';
          assert Squeezed(b) == " " + Squeezed(rest);
          assert ([""] + r)[1..] == r;
        }
      } else {
        assert b[0] == s[0] != ' ';
        JoinConsFirst(s[0], r, ' ');
      }
    }
  }

  /**
   * `re.split(r'\s+', s)` is the plain split on one space of the text with
   * each run of white space turned into one space: its pieces are exactly
   * the whitespace-separated words, in order, with an empty first or last
   * piece for leading or trailing white space.
   */
  lemma SplitOnSpaceRunsWords(s: string)
    ensures SplitOnSpaceRuns(s) == Split(Squeezed(Blanked(s)), ' ')
  {
    var r := SplitOnSpaceRuns(s);
    SplitOnSpaceRunsJoin(s);
    forall i | 0 <= i < |r| ensures !Has(r[i], ' ') {
      assert IsReSpace(' ');
    }
    SplitJoin(r, ' ');
  }
}
