/** Searching, trimming and joining strings, with the library behaviour the modelled programs rely on. */
module Text {

  predicate OccursAt(s: string, p: string, i: int) {
    0 <= i <= i + |p| <= |s| && s[i..i + |p|] == p
  }

  lemma OccursInside(s: string, p: string, i: int)
    ensures OccursAt(s, p, i) ==> 0 <= i && i + |p| <= |s|
  {
  }

  predicate Contains(s: string, p: string) {
    exists i :: 0 <= i <= |s| && OccursAt(s, p, i)
  }

  /** `s.find(p, from)`: the first occurrence at or after `from`, -1 when there is none. */
  function Find(s: string, p: string, from: nat): (r: int)
    ensures r >= 0 ==> r >= from && OccursAt(s, p, r) && forall i :: from <= i < r ==> !OccursAt(s, p, i)
    ensures r < 0 ==> r == -1 && forall i :: from <= i ==> !OccursAt(s, p, i)
    decreases |s| - from
  {
    if from + |p| > |s| then -1
    else if s[from..from + |p|] == p then from
    else Find(s, p, from + 1)
  }

  /** An occurrence that is found lies inside the text. */
  lemma FindFits(s: string, p: string, from: nat)
    ensures Find(s, p, from) >= 0 ==> from <= Find(s, p, from) && Find(s, p, from) + |p| <= |s|
  {
  }

  lemma Occurrence(s: string, p: string) returns (i: nat)
    requires Contains(s, p)
    ensures OccursAt(s, p, i)
  {
    i :| 0 <= i <= |s| && OccursAt(s, p, i);
  }

  lemma OccursIn(s: string, p: string, i: int)
    ensures OccursAt(s, p, i) ==> Contains(s, p)
  {
  }

  /** The first occurrence is determined by what it promises. */
  lemma FindIs(s: string, p: string, from: nat, r: nat)
    requires from <= r && OccursAt(s, p, r) && forall i :: from <= i < r ==> !OccursAt(s, p, i)
    ensures Find(s, p, from) == r
  {
  }

  lemma OccursShift(x: string, y: string, p: string, i: int)
    ensures i >= 0 ==> (OccursAt(x + y, p, |x| + i) <==> OccursAt(y, p, i))
  {
    if i >= 0 && i + |p| <= |y| { assert (x + y)[|x| + i..|x| + i + |p|] == y[i..i + |p|]; }
  }

  lemma FindShift(x: string, y: string, p: string, from: nat)
    ensures Find(x + y, p, |x| + from) == if Find(y, p, from) < 0 then -1 else |x| + Find(y, p, from)
  {
    forall i | i >= 0 ensures OccursAt(x + y, p, |x| + i) <==> OccursAt(y, p, i) { OccursShift(x, y, p, i); }
    var r, q := Find(x + y, p, |x| + from), Find(y, p, from);
    if q >= 0 {
      forall j | |x| + from <= j < |x| + q ensures !OccursAt(x + y, p, j) { OccursShift(x, y, p, j - |x|); }
    }
    if r >= 0 { OccursShift(x, y, p, r - |x|); }
  }

  lemma ContainsPart(x: string, s: string, y: string)
    ensures Contains(x + s + y, s)
  {
    assert (x + s + y)[|x|..|x| + |s|] == s;
    OccursIn(x + s + y, s, |x|);
  }

  lemma ContainsTransitive(a: string, b: string, c: string)
    requires Contains(a, b) && Contains(b, c)
    ensures Contains(a, c)
  {
    var i := Occurrence(a, b);
    var j := Occurrence(b, c);
    assert a[i..i + |b|] == b && b[j..j + |c|] == c;
    forall k | 0 <= k < |c| ensures a[i + j + k] == c[k] {
      assert a[i..i + |b|][j + k] == a[i + j + k] && b[j..j + |c|][k] == b[j + k];
    }
    assert a[i + j..i + j + |c|] == c;
    OccursIn(a, c, i + j);
  }

  // ---------- trimming ----------

  /** The characters `str.strip()` removes. */
  predicate Space(c: char) {
    '\t' <= c <= '\r' || '\U{1C}' <= c <= ' ' || c == '\U{85}' || c == '\U{A0}' || c == '\U{1680}'
    || '\U{2000}' <= c <= '\U{200A}' || c == '\U{2028}' || c == '\U{2029}' || c == '\U{202F}' || c == '\U{205F}' || c == '\U{3000}'
  }

  /** They are 29 code points. */
  lemma SpaceMeans(c: char)
    ensures Space(c) <==> c as int in [9, 10, 11, 12, 13, 28, 29, 30, 31, 32, 133, 160, 5760, 8192, 8193, 8194, 8195, 8196, 8197,
                                       8198, 8199, 8200, 8201, 8202, 8232, 8233, 8239, 8287, 12288]
  {
  }

  predicate Blank(s: string) {
    forall i :: 0 <= i < |s| ==> Space(s[i])
  }

  function StripLeft(s: string): string {
    if s != "" && Space(s[0]) then StripLeft(s[1..]) else s
  }

  function StripRight(s: string): string
    decreases |s|
  {
    if s != "" && Space(s[|s| - 1]) then StripRight(s[..|s| - 1]) else s
  }

  function Strip(s: string): string { StripRight(StripLeft(s)) }

  /** Trimming a text on the left keeps everything from the trimmed form of any nonblank part on. */
  lemma {:induction false} StripLeftKeeps(x: string, s: string) returns (x': string)
    requires !Blank(s)
    ensures StripLeft(x + s) == x' + StripLeft(s)
    decreases |x| + |s|
  {
    if x == "" {
      x' := "";
      assert x + s == s;
    } else if Space(x[0]) {
      assert (x + s)[1..] == x[1..] + s;
      x' := StripLeftKeeps(x[1..], s);
    } else {
      var lead := SplitLeft(s);
      x' := x + lead;
      assert x + s == x' + StripLeft(s);
    }
  }

  lemma {:induction false} SplitLeft(s: string) returns (lead: string)
    ensures s == lead + StripLeft(s)
  {
    if s != "" && Space(s[0]) {
      var rest := SplitLeft(s[1..]);
      lead := [s[0]] + rest;
    } else {
      lead := "";
    }
  }

  lemma {:induction false} StripRightKeeps(s: string, y: string) returns (y': string)
    requires !Blank(s)
    ensures StripRight(s + y) == StripRight(s) + y'
    decreases |s| + |y|
  {
    if y == "" {
      y' := "";
      assert s + y == s;
    } else if Space(y[|y| - 1]) {
      assert (s + y)[..|s + y| - 1] == s + y[..|y| - 1];
      y' := StripRightKeeps(s, y[..|y| - 1]);
    } else {
      var tail := SplitRight(s);
      y' := tail + y;
      assert s + y == StripRight(s) + y';
    }
  }

  lemma {:induction false} SplitRight(s: string) returns (tail: string)
    ensures s == StripRight(s) + tail
    decreases |s|
  {
    if s != "" && Space(s[|s| - 1]) {
      var rest := SplitRight(s[..|s| - 1]);
      tail := rest + [s[|s| - 1]];
    } else {
      tail := "";
    }
  }

  /** A text contains its own trimmed form. */
  lemma StripInside(s: string)
    ensures Contains(s, Strip(s))
  {
    var lead := SplitLeft(s);
    var tail := SplitRight(StripLeft(s));
    assert s == lead + Strip(s) + tail;
    ContainsPart(lead, Strip(s), tail);
  }

  lemma {:induction false} StripLeftNonblank(s: string)
    requires !Blank(s)
    ensures !Blank(StripLeft(s))
  {
    if Space(s[0]) {
      assert !Blank(s[1..]) by {
        var i :| 0 <= i < |s| && !Space(s[i]);
        assert s[1..][i - 1] == s[i];
      }
      StripLeftNonblank(s[1..]);
    }
  }

  /** The trimmed form of a nonblank part survives, in one piece, in the trimmed form of the whole. */
  lemma StripContains(x: string, s: string, y: string)
    requires !Blank(s)
    ensures Contains(Strip(x + s + y), Strip(s))
  {
    assert !Blank(s + y) by {
      var i :| 0 <= i < |s| && !Space(s[i]);
      assert (s + y)[i] == s[i];
    }
    assert x + s + y == x + (s + y);
    var x' := StripLeftKeeps(x, s + y);
    StripLeftAppend(s, y);
    var left := StripLeft(s);
    StripLeftNonblank(s);
    assert StripLeft(x + s + y) == x' + (left + y) == (x' + left) + y;
    assert !Blank(x' + left) by {
      var i :| 0 <= i < |left| && !Space(left[i]);
      assert (x' + left)[|x'| + i] == left[i];
    }
    var y' := StripRightKeeps(x' + left, y);
    StripRightPrepend(x', left);
    ContainsPart(x', StripRight(left), y');
  }

  lemma {:induction false} StripLeftAppend(s: string, y: string)
    requires !Blank(s)
    ensures StripLeft(s + y) == StripLeft(s) + y
  {
    if Space(s[0]) {
      assert !Blank(s[1..]) by {
        var i :| 0 <= i < |s| && !Space(s[i]);
        assert s[1..][i - 1] == s[i];
      }
      StripLeftAppend(s[1..], y);
      assert (s + y)[1..] == s[1..] + y;
    }
  }

  lemma {:induction false} StripRightPrepend(x: string, s: string)
    requires !Blank(s)
    ensures StripRight(x + s) == x + StripRight(s)
    decreases |s|
  {
    if Space(s[|s| - 1]) {
      assert !Blank(s[..|s| - 1]) by {
        var i :| 0 <= i < |s| && !Space(s[i]);
        assert s[..|s| - 1][i] == s[i];
      }
      StripRightPrepend(x, s[..|s| - 1]);
      assert (x + s)[..|x + s| - 1] == x + s[..|s| - 1];
    }
  }

  // ---------- joining ----------

  function Join(sep: string, parts: seq<string>): string {
    if parts == [] then ""
    else if |parts| == 1 then parts[0]
    else parts[0] + sep + Join(sep, parts[1..])
  }

  lemma {:induction false} JoinContains(sep: string, parts: seq<string>, i: nat)
    requires i < |parts|
    ensures Contains(Join(sep, parts), parts[i])
  {
    if |parts| == 1 {
      assert OccursAt(parts[0], parts[0], 0);
    } else if i == 0 {
      assert Join(sep, parts) == "" + parts[0] + (sep + Join(sep, parts[1..]));
      ContainsPart("", parts[0], sep + Join(sep, parts[1..]));
    } else {
      JoinContains(sep, parts[1..], i - 1);
      var rest := Join(sep, parts[1..]);
      assert Join(sep, parts) == (parts[0] + sep) + rest + "";
      ContainsPart(parts[0] + sep, rest, "");
      ContainsTransitive(Join(sep, parts), rest, parts[i]);
    }
  }
}
