/** The few Python string operations the header sidecar relies on, stated
    on `string` (a sequence of characters): `sep.join`, `str.split` with a
    one-character separator, the `in` substring test, `str.strip()`,
    `str.rstrip('\n')` and the line splitting of `readlines()`. */
module Strings {

  /** Position of the first occurrence of c in s. */
  function IndexOf(s: string, c: char): (k: nat)
    requires c in s
    ensures k < |s| && s[k] == c && c !in s[..k]
  {
    if s[0] == c then 0
    else
      assert s == [s[0]] + s[1..];
      var k := 1 + IndexOf(s[1..], c);
      assert s[..k] == [s[0]] + s[1..][..k - 1];
      k
  }

  /** The first occurrence is determined by "c sits there and not before". */
  lemma IndexOfAt(s: string, c: char, k: nat)
    requires k < |s| && s[k] == c && c !in s[..k]
    ensures IndexOf(s, c) == k
  {
  }

  /** Python's s.split(sep): the pieces between separators, always at least one. */
  function Split(s: string, sep: char): (parts: seq<string>)
    ensures |parts| >= 1
    ensures |parts| == 1 <==> sep !in s
    decreases |s|
  {
    if sep !in s then [s]
    else
      var k := IndexOf(s, sep);
      [s[..k]] + Split(s[k + 1..], sep)
  }

  /** No piece of a split holds the separator. */
  lemma {:induction false} SplitPieces(s: string, sep: char)
    ensures forall i :: 0 <= i < |Split(s, sep)| ==> sep !in Split(s, sep)[i]
    decreases |s|
  {
    if sep in s {
      var k := IndexOf(s, sep);
      SplitPieces(s[k + 1..], sep);
    }
  }

  /** Python's sep.join(parts). */
  function Join(parts: seq<string>, sep: char): (r: string)
    ensures |parts| >= 1 ==> parts[0] <= r
  {
    if |parts| == 0 then ""
    else if |parts| == 1 then parts[0]
    else parts[0] + [sep] + Join(parts[1..], sep)
  }

  /** Joining a piece in front of at least one more puts a separator between. */
  lemma JoinCons(x: string, rest: seq<string>, sep: char)
    requires |rest| >= 1
    ensures Join([x] + rest, sep) == x + [sep] + Join(rest, sep)
  {
    assert ([x] + rest)[1..] == rest;
  }

  /** Joining the pieces of a split gives back the string. */
  lemma {:induction false} JoinSplit(s: string, sep: char)
    ensures Join(Split(s, sep), sep) == s
    decreases |s|
  {
    if sep in s {
      var k := IndexOf(s, sep);
      var rest := Split(s[k + 1..], sep);
      JoinSplit(s[k + 1..], sep);
      JoinCons(s[..k], rest, sep);
      assert s == s[..k] + [sep] + s[k + 1..];
    }
  }

  /** A split breaks off everything before the first separator. */
  lemma SplitAt(s: string, sep: char, k: nat)
    requires k < |s| && s[k] == sep && sep !in s[..k]
    ensures Split(s, sep) == [s[..k]] + Split(s[k + 1..], sep)
  {
    IndexOfAt(s, sep, k);
  }

  /** Associativity of concatenation on lists of pieces. Stated as a lemma
      over abstract lists so that SplitAround can use it without the solver
      unfolding the split pieces; written inline, that proof runs out of
      resource. */
  lemma PiecesAssociate(x: seq<string>, y: seq<string>, z: seq<string>)
    ensures x + (y + z) == (x + y) + z
  {
  }

  /** Splitting at a separator placed between a and b splits a and b apart. */
  lemma {:induction false} SplitAround(a: string, sep: char, b: string)
    ensures Split(a + [sep] + b, sep) == Split(a, sep) + Split(b, sep)
    decreases |a|
  {
    var s := a + [sep] + b;
    if sep !in a {
      assert s[..|a|] == a && s[|a| + 1..] == b;
      SplitAt(s, sep, |a|);
      assert Split(a, sep) == [a];
    } else {
      var k := IndexOf(a, sep);
      var tail := a[k + 1..] + [sep] + b;
      assert s[..k] == a[..k] && s[k + 1..] == tail;
      SplitAt(s, sep, k);
      SplitAt(a, sep, k);
      SplitAround(a[k + 1..], sep, b);
      PiecesAssociate([a[..k]], Split(a[k + 1..], sep), Split(b, sep));
    }
  }

  /** k occurs in s starting at position i. */
  predicate OccursAt(s: string, k: string, i: int) {
    0 <= i <= |s| - |k| && s[i..i + |k|] == k
  }

  /** Python's `k in s` for two strings. */
  predicate Contains(s: string, k: string)
    ensures Contains(s, k) ==> |k| <= |s|
    ensures k == [] ==> Contains(s, k)
  {
    assert k == [] ==> OccursAt(s, k, 0);
    exists i | 0 <= i <= |s| - |k| :: OccursAt(s, k, i)
  }

  lemma ContainsItself(k: string)
    ensures Contains(k, k)
  {
    assert OccursAt(k, k, 0);
  }

  /** A string lacking one of k's characters does not contain k. */
  lemma AbsentByChar(s: string, k: string, j: nat)
    requires j < |k| && k[j] !in s
    ensures !Contains(s, k)
  {
  }

  lemma CharOfOccurrence(s: string, k: string, i: int, j: nat)
    requires OccursAt(s, k, i) && j < |k|
    ensures s[i + j] == k[j]
  {
    assert s[i..i + |k|][j] == k[j];
  }

  /** A key without the separator c, absent from b, occurs in a + [c] + b
      exactly when it occurs in a. */
  lemma ContainsAcross(a: string, c: char, b: string, k: string)
    requires c !in k && !Contains(b, k)
    ensures Contains(a + [c] + b, k) <==> Contains(a, k)
  {
    var s := a + [c] + b;
    if Contains(a, k) {
      var i :| 0 <= i <= |a| - |k| && OccursAt(a, k, i);
      assert a[i..i + |k|] == k;
      assert forall j :: i <= j < i + |k| ==> s[j] == a[j];
      assert s[i..i + |k|] == k;
      assert OccursAt(s, k, i);
    }
    if Contains(s, k) {
      var i :| 0 <= i <= |s| - |k| && OccursAt(s, k, i);
      assert s[i..i + |k|] == k;
      if i + |k| <= |a| {
        assert forall j :: i <= j < i + |k| ==> s[j] == a[j];
        assert a[i..i + |k|] == k;
        assert OccursAt(a, k, i);
      } else if i <= |a| {
        // a window that straddles position |a| would put c into k
        CharOfOccurrence(s, k, i, |a| - i);
        assert false;
      } else {
        var i' := i - |a| - 1;
        assert b[i'..i' + |k|] == k;
        assert OccursAt(b, k, i');
      }
    }
  }

  /** Python's str.isspace for one character. */
  predicate IsSpace(c: char) {
    var n := c as int;
    n == 0x20 || 0x09 <= n <= 0x0D || 0x1C <= n <= 0x1F || n == 0x85 || n == 0xA0 ||
    n == 0x1680 || 0x2000 <= n <= 0x200A || n == 0x2028 || n == 0x2029 ||
    n == 0x202F || n == 0x205F || n == 0x3000
  }

  /** Python's s.lstrip(): the leading whitespace, and only that, removed. */
  function StripLeft(s: string): (r: string)
    ensures r == [] || !IsSpace(r[0])
    ensures |r| <= |s| && r == s[|s| - |r|..]
    ensures forall j :: 0 <= j < |s| - |r| ==> IsSpace(s[j])
  {
    if |s| > 0 && IsSpace(s[0]) then StripLeft(s[1..]) else s
  }

  /** Python's s.rstrip(): the trailing whitespace, and only that, removed. */
  function StripRight(s: string): (r: string)
    ensures r == [] || !IsSpace(r[|r| - 1])
    ensures |r| <= |s| && r == s[..|r|]
    ensures forall j :: |r| <= j < |s| ==> IsSpace(s[j])
  {
    if |s| > 0 && IsSpace(s[|s| - 1]) then StripRight(s[..|s| - 1]) else s
  }

  /** r is the slice of s starting at a, with nothing but whitespace around it. */
  predicate SpaceAround(s: string, r: string, a: int) {
    0 <= a <= |s| - |r| && r == s[a..a + |r|] &&
    (forall j :: 0 <= j < a ==> IsSpace(s[j])) &&
    (forall j :: a + |r| <= j < |s| ==> IsSpace(s[j]))
  }

  /** Python's s.strip(): the result is a slice of s with nothing but
      whitespace before and after it, and it neither starts nor ends with
      whitespace itself. */
  function Strip(s: string): (r: string)
    ensures r == [] || (!IsSpace(r[0]) && !IsSpace(r[|r| - 1]))
    ensures exists a :: SpaceAround(s, r, a)
  {
    var l := StripLeft(s);
    var r := StripRight(l);
    assert r != [] ==> r[0] == l[0];
    StripBothSides(s);
    r
  }

  /** Stripping the left and then the right leaves a slice of s with only
      whitespace around it. */
  lemma StripBothSides(s: string)
    ensures SpaceAround(s, StripRight(StripLeft(s)), |s| - |StripLeft(s)|)
  {
    var l := StripLeft(s);
    SpaceAroundCompose(s, l, StripRight(l), |s| - |l|);
  }

  /** Whitespace cut from the front, then from the back of what is left, is
      whitespace around a slice of the original. */
  lemma SpaceAroundCompose(s: string, l: string, r: string, a: nat)
    requires a <= |s| && l == s[a..] && forall j :: 0 <= j < a ==> IsSpace(s[j])
    requires |r| <= |l| && r == l[..|r|] && forall j :: |r| <= j < |l| ==> IsSpace(l[j])
    ensures SpaceAround(s, r, a)
  {
    assert r == s[a..a + |r|];
    forall j | a + |r| <= j < |s|
      ensures IsSpace(s[j])
    {
      assert s[j] == l[j - a];
    }
  }

  /** lstrip() drops leading whitespace up to the first non-blank. */
  lemma {:induction false} StripLeftPadded(p: string, t: string)
    requires forall j :: 0 <= j < |p| ==> IsSpace(p[j])
    requires t == [] || !IsSpace(t[0])
    ensures StripLeft(p + t) == t
    decreases |p|
  {
    if p != [] {
      assert (p + t)[1..] == p[1..] + t;
      StripLeftPadded(p[1..], t);
    } else {
      assert p + t == t;
    }
  }

  /** rstrip() drops trailing whitespace back to the last non-blank. */
  lemma {:induction false} StripRightPadded(t: string, q: string)
    requires forall j :: 0 <= j < |q| ==> IsSpace(q[j])
    requires t == [] || !IsSpace(t[|t| - 1])
    ensures StripRight(t + q) == t
    decreases |q|
  {
    if q != [] {
      assert (t + q)[..|t + q| - 1] == t + q[..|q| - 1];
      StripRightPadded(t, q[..|q| - 1]);
    } else {
      assert t + q == t;
    }
  }

  /** strip() of a text padded with whitespace on both sides gives the text. */
  lemma StripPadded(p: string, t: string, q: string)
    requires forall j :: 0 <= j < |p| ==> IsSpace(p[j])
    requires forall j :: 0 <= j < |q| ==> IsSpace(q[j])
    requires t != [] && !IsSpace(t[0]) && !IsSpace(t[|t| - 1])
    ensures Strip(p + t + q) == t
  {
    assert p + t + q == p + (t + q);
    StripLeftPadded(p, t + q);
    StripRightPadded(t, q);
  }

  lemma StripUnchanged(s: string)
    requires |s| > 0 && !IsSpace(s[0]) && !IsSpace(s[|s| - 1])
    ensures Strip(s) == s
  {
  }

  /** Python's s.rstrip('\n'): the trailing newlines, and only those, removed. */
  function TrimNewlines(s: string): (r: string)
    ensures r == [] || r[|r| - 1] != '\n'
    ensures |r| <= |s| && r == s[..|r|]
    ensures forall j :: |r| <= j < |s| ==> s[j] == '\n'
  {
    if |s| > 0 && s[|s| - 1] == '\n' then TrimNewlines(s[..|s| - 1]) else s
  }

  /** The lines that readlines() yields: each piece up to and including a
      newline, and a final piece without one if the text does not end there. */
  function ReadLines(text: string): (lines: seq<string>)
    ensures lines == [] <==> text == []
    ensures forall j :: 0 <= j < |lines| ==> lines[j] != []
    decreases |text|
  {
    if text == [] then []
    else if '\n' !in text then [text]
    else
      var k := IndexOf(text, '\n');
      [text[..k + 1]] + ReadLines(text[k + 1..])
  }

  /** A line ended by a newline is the first piece readlines() yields. */
  lemma ReadLinesCons(l: string, tail: string)
    requires '\n' !in l
    ensures ReadLines(l + ['\n'] + tail) == [l + ['\n']] + ReadLines(tail)
  {
    var text := l + ['\n'] + tail;
    assert text[..|l|] == l;
    IndexOfAt(text, '\n', |l|);
    assert text[..|l| + 1] == l + ['\n'];
    assert text[|l| + 1..] == tail;
  }

  /** rstrip('\n') takes exactly the newline off a line that ends with one. */
  lemma TrimNewlinesOfLine(l: string)
    requires '\n' !in l
    ensures TrimNewlines(l + ['\n']) == l
  {
    assert (l + ['\n'])[..|l|] == l;
  }
}
