/**
 * The string operations the recommender applies: `str.lower`, `str.strip`,
 * `" ".join`, substring search and Python's ordering of strings.
 * Case and whitespace are modelled on the ASCII range.
 */
module Text {

  /** ASCII whitespace as `str.strip` removes it: tab to carriage return, the four separators 0x1C-0x1F, and space. */
  predicate IsSpace(c: char) {
    (9 <= c as int <= 13) || (28 <= c as int <= 32)
  }

  predicate IsUpper(c: char) {
    'A' <= c <= 'Z'
  }

  function LowerChar(c: char): (d: char)
    ensures !IsUpper(d)
    ensures IsSpace(d) <==> IsSpace(c)
  {
    if IsUpper(c) then (c as int + 32) as char else c
  }

  /** `str.lower` on the ASCII letters. */
  function Lower(s: string): (r: string)
    ensures |r| == |s|
    ensures forall i :: 0 <= i < |s| ==> r[i] == LowerChar(s[i])
  {
    seq(|s|, i requires 0 <= i < |s| => LowerChar(s[i]))
  }

  /** Drops leading whitespace. */
  function TrimStart(s: string): (r: string)
    ensures |r| <= |s| && r == s[|s| - |r|..]
    ensures r != [] ==> !IsSpace(r[0])
    ensures forall i :: 0 <= i < |s| - |r| ==> IsSpace(s[i])
  {
    if s != [] && IsSpace(s[0]) then TrimStart(s[1..]) else s
  }

  /** Drops trailing whitespace. */
  function TrimEnd(s: string): (r: string)
    ensures |r| <= |s| && r == s[..|r|]
    ensures r != [] ==> !IsSpace(r[|r| - 1])
    ensures forall i :: |r| <= i < |s| ==> IsSpace(s[i])
  {
    if s != [] && IsSpace(s[|s| - 1]) then TrimEnd(s[..|s| - 1]) else s
  }

  /** `str.strip`: the result is the infix of `s` between its leading and trailing whitespace. */
  function Strip(s: string): (r: string)
  {
    TrimEnd(TrimStart(s))
  }

  /** `sep.join(parts)`. */
  function Join(parts: seq<string>, sep: string): string
  {
    if parts == [] then ""
    else if |parts| == 1 then parts[0]
    else parts[0] + sep + Join(parts[1..], sep)
  }

  /** Plain substring search (`needle in hay`). */
  predicate Contains(hay: string, needle: string) {
    exists i :: 0 <= i <= |hay| && OccursAt(hay, needle, i)
  }

  predicate OccursAt(hay: string, needle: string, i: int) {
    0 <= i <= |hay| - |needle| && hay[i..i + |needle|] == needle
  }

  /** `str.contains(needle, case=False)` for a needle without regular-expression syntax. */
  predicate ContainsIgnoreCase(hay: string, needle: string) {
    Contains(Lower(hay), Lower(needle))
  }

  /** Python's `a <= b` on strings: lexicographic by code point, a prefix first. */
  predicate LexLeq(a: string, b: string) {
    if a == [] then true
    else if b == [] then false
    else if a[0] != b[0] then a[0] < b[0]
    else LexLeq(a[1..], b[1..])
  }

  /** Adjacent elements are in ascending string order. */
  predicate Ascending(s: seq<string>) {
    forall i :: 0 <= i < |s| - 1 ==> LexLeq(s[i], s[i + 1])
  }

  lemma {:induction false} LexTotal(a: string, b: string)
    ensures LexLeq(a, b) || LexLeq(b, a)
  {
    if a != [] && b != [] && a[0] == b[0] {
      LexTotal(a[1..], b[1..]);
    }
  }

  lemma {:induction false} LexTransitive(a: string, b: string, c: string)
    requires LexLeq(a, b) && LexLeq(b, c)
    ensures LexLeq(a, c)
  {
    if a != [] && b != [] && c != [] && a[0] == b[0] && b[0] == c[0] {
      LexTransitive(a[1..], b[1..], c[1..]);
    }
  }

  function InsertId(x: string, s: seq<string>): (r: seq<string>)
    ensures multiset(r) == multiset(s) + multiset{x}
    ensures r != [] && (r[0] == x || (s != [] && r[0] == s[0]))
    ensures Ascending(s) ==> Ascending(r)
  {
    if s == [] then [x]
    else if LexLeq(x, s[0]) then [x] + s
    else
      var rest := InsertId(x, s[1..]);
      InsertIdBehind(x, s, rest);
      [s[0]] + rest
  }

  /** Keeping the head in front of the insertion into the tail, for an id that sorts after the head. */
  lemma InsertIdBehind(x: string, s: seq<string>, rest: seq<string>)
    requires s != [] && !LexLeq(x, s[0])
    requires multiset(rest) == multiset(s[1..]) + multiset{x}
    requires rest != [] && (rest[0] == x || (|s| > 1 && rest[0] == s[1]))
    requires Ascending(s[1..]) ==> Ascending(rest)
    ensures multiset([s[0]] + rest) == multiset(s) + multiset{x}
    ensures Ascending(s) ==> Ascending([s[0]] + rest)
  {
    LexTotal(x, s[0]);
    assert s == [s[0]] + s[1..];
    var r := [s[0]] + rest;
    if Ascending(s) {
      assert Ascending(s[1..]) by {
        forall i | 0 <= i < |s[1..]| - 1 ensures LexLeq(s[1..][i], s[1..][i + 1]) {
          assert s[1..][i] == s[i + 1] && s[1..][i + 1] == s[i + 2];
        }
      }
      forall i | 0 <= i < |r| - 1 ensures LexLeq(r[i], r[i + 1]) {
        if i > 0 {
          assert r[i] == rest[i - 1] && r[i + 1] == rest[i];
        }
      }
    }
  }

  /** The ascending sort that pandas' `Index.difference` applies to its result. */
  function SortIds(s: seq<string>): (r: seq<string>)
    ensures multiset(r) == multiset(s)
    ensures Ascending(r)
  {
    if s == [] then [] else
      assert s == [s[0]] + s[1..];
      InsertId(s[0], SortIds(s[1..]))
  }

  /**
   * An ascending sequence lists its elements from the smallest: every element
   * at or after position `i` is at least the element at `i`.
   */
  lemma {:induction false} AscendingFrom(s: seq<string>, i: nat, j: nat)
    requires Ascending(s) && i <= j < |s|
    ensures LexLeq(s[i], s[j])
    decreases j - i
  {
    if i == j {
      LexReflexive(s[i]);
    } else {
      AscendingFrom(s, i + 1, j);
      LexTransitive(s[i], s[i + 1], s[j]);
    }
  }

  lemma {:induction false} LexReflexive(a: string)
    ensures LexLeq(a, a)
  {
    if a != [] {
      LexReflexive(a[1..]);
    }
  }

  /** Stripping removes exactly the surrounding whitespace and nothing else. */
  lemma StripSpec(s: string)
    ensures Contains(s, Strip(s))
    ensures exists i :: Framed(s, Strip(s), i)
    ensures Strip(s) != [] ==> !IsSpace(Strip(s)[0]) && !IsSpace(Strip(s)[|Strip(s)| - 1])
    ensures (s == [] || (!IsSpace(s[0]) && !IsSpace(s[|s| - 1]))) ==> Strip(s) == s
  {
    var t := TrimStart(s);
    var r := TrimEnd(t);
    var i := |s| - |t|;
    assert OccursAt(s, r, i);
    StripFramed(s);
  }

  /** `r` occurs in `s` at `i` with only whitespace before and after it. */
  predicate Framed(s: string, r: string, i: int) {
    && OccursAt(s, r, i)
    && (forall k :: 0 <= k < i ==> IsSpace(s[k]))
    && (forall k :: i + |r| <= k < |s| ==> IsSpace(s[k]))
  }

  lemma StripFramed(s: string)
    ensures Framed(s, Strip(s), |s| - |TrimStart(s)|)
  {
    var t := TrimStart(s);
    var r := TrimEnd(t);
    var i := |s| - |t|;
    assert s[i..] == t;
    forall k | i + |r| <= k < |s| ensures IsSpace(s[k]) {
      assert s[k] == t[k - i];
    }
  }

  /** Stripping twice is stripping once. */
  lemma StripIdempotent(s: string)
    ensures Strip(Strip(s)) == Strip(s)
  {
    StripSpec(s);
    StripSpec(Strip(s));
  }

  /** Each part lower-cased. */
  function LowerAll(parts: seq<string>): (r: seq<string>)
    ensures |r| == |parts| && forall i :: 0 <= i < |parts| ==> r[i] == Lower(parts[i])
  {
    seq(|parts|, i requires 0 <= i < |parts| => Lower(parts[i]))
  }

  lemma LowerConcat(a: string, b: string)
    ensures Lower(a + b) == Lower(a) + Lower(b)
  {
    assert forall i :: 0 <= i < |a + b| ==> Lower(a + b)[i] == (Lower(a) + Lower(b))[i];
  }

  /** Lower-casing a joined string lower-cases each part and the separator. */
  lemma {:induction false} LowerJoin(parts: seq<string>, sep: string)
    ensures Lower(Join(parts, sep)) == Join(LowerAll(parts), Lower(sep))
  {
    if |parts| > 1 {
      LowerJoin(parts[1..], sep);
      assert LowerAll(parts)[1..] == LowerAll(parts[1..]);
      LowerConcat(parts[0], sep);
      LowerConcat(parts[0] + sep, Join(parts[1..], sep));
    }
  }

  /** Every character of `Strip(s)` is a character of `s`. */
  lemma StripChars(s: string)
    ensures forall c :: c in Strip(s) ==> c in s
  {
    var ts := TrimStart(s);
    assert forall c :: c in ts ==> c in s by {
      assert ts == s[|s| - |ts|..];
    }
    assert forall c :: c in TrimEnd(ts) ==> c in ts by {
      assert TrimEnd(ts) == ts[..|TrimEnd(ts)|];
    }
  }

  /** `s.lower().strip()` has no whitespace at either end and no upper-case letter, and stripping it again changes nothing. */
  lemma LowerStripClean(s: string)
    ensures var t := Strip(Lower(s));
      && (t != [] ==> !IsSpace(t[0]) && !IsSpace(t[|t| - 1]))
      && (forall i :: 0 <= i < |t| ==> !IsUpper(t[i]))
      && Strip(t) == t
  {
    var l := Lower(s);
    var t := Strip(l);
    StripIdempotent(l);
    StripEdges(l);
    StripChars(l);
    forall i | 0 <= i < |t| ensures !IsUpper(t[i]) {
      assert t[i] in l;
      var k :| 0 <= k < |l| && l[k] == t[i];
      assert l[k] == LowerChar(s[k]);
    }
  }

  /** Lower-casing a string with non-blank ends and one trailing blank, then stripping, gives the lower-cased string. */
  lemma StripTrailingBlank(t: string)
    requires t != [] && !IsSpace(t[0]) && !IsSpace(t[|t| - 1])
    ensures Strip(Lower(t + " ")) == Lower(t)
  {
    var l := Lower(t);
    var s := Lower(t + " ");
    LowerConcat(t, " ");
    assert Lower(" ") == " ";
    assert s == l + " ";
    assert s[0] == l[0] == LowerChar(t[0]);
    assert TrimStart(s) == s;
    assert s[..|s| - 1] == l;
    assert l[|l| - 1] == LowerChar(t[|t| - 1]);
    assert TrimEnd(l) == l;
  }

  /** The stripped string starts and ends with a non-whitespace character. */
  lemma StripEdges(s: string)
    ensures var t := Strip(s); t != [] ==> !IsSpace(t[0]) && !IsSpace(t[|t| - 1])
  {
    var ts := TrimStart(s);
    assert TrimEnd(ts) != [] ==> TrimEnd(ts)[0] == ts[0];
  }
}
