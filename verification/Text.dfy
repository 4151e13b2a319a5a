/** Searching and splitting texts at a character. */
module Text {

  function Find(s: string, c: char): (i: int)
    ensures -1 <= i < |s|
  {
    if s == "" then -1
    else if s[0] == c then 0
    else
      var i := Find(s[1..], c);
      if i < 0 then -1 else i + 1
  }

  lemma {:induction false} FindsFirst(s: string, c: char)
    ensures var i := Find(s, c); (i < 0 <==> c !in s) && (i >= 0 ==> s[i] == c && c !in s[..i])
  {
    if s != "" && s[0] != c {
      FindsFirst(s[1..], c);
      var i := Find(s[1..], c);
      if i >= 0 { assert s[..i + 1] == [s[0]] + s[1..][..i]; }
      assert s == [s[0]] + s[1..];
    }
  }

  /** The first occurrence is where a prefix without `c` ends. */
  lemma {:induction false} FindAt(a: string, c: char, b: string)
    requires c !in a
    ensures Find(a + [c] + b, c) == |a|
    ensures (a + [c] + b)[..|a|] == a && (a + [c] + b)[|a| + 1..] == b
  {
    var s := a + [c] + b;
    if a != "" {
      FindAt(a[1..], c, b);
      assert s[1..] == a[1..] + [c] + b;
    }
    assert s[..|a|] == a && s[|a| + 1..] == b;
  }

  lemma FindBack(s: string, c: char)
    requires Find(s, c) >= 0
    ensures var i := Find(s, c); s == s[..i] + [c] + s[i + 1..] && c !in s[..i]
  {
    FindsFirst(s, c);
  }

  function Split(s: string, c: char): (fields: seq<string>)
    ensures |fields| >= 1
    decreases |s|
  {
    var i := Find(s, c);
    if i < 0 then [s] else [s[..i]] + Split(s[i + 1..], c)
  }

  /** Undoes a split. */
  function Joined(fields: seq<string>, c: char): string
    requires |fields| >= 1
  {
    if |fields| == 1 then fields[0] else fields[0] + [c] + Joined(fields[1..], c)
  }

  predicate Without(fields: seq<string>, c: char) { forall i | 0 <= i < |fields| :: c !in fields[i] }

  /** A field more at the front is a field and a separator more in the text. */
  lemma SplitCons(a: string, c: char, t: string)
    requires c !in a
    ensures Split(a + [c] + t, c) == [a] + Split(t, c)
  {
    FindAt(a, c, t);
  }

  lemma {:induction false} SplitJoined(fields: seq<string>, c: char)
    requires |fields| >= 1 && Without(fields, c)
    ensures Split(Joined(fields, c), c) == fields
    decreases |fields|
  {
    if |fields| == 1 {
      FindsFirst(fields[0], c);
    } else {
      var rest := fields[1..];
      assert fields == [fields[0]] + rest;
      assert Without(rest, c);
      SplitJoined(rest, c);
      SplitCons(fields[0], c, Joined(rest, c));
    }
  }

  lemma {:induction false} JoinedSplit(s: string, c: char)
    ensures Joined(Split(s, c), c) == s && Without(Split(s, c), c)
    decreases |s|
  {
    var i := Find(s, c);
    FindsFirst(s, c);
    if i >= 0 {
      var t := s[i + 1..];
      JoinedSplit(t, c);
      FindBack(s, c);
      assert Split(s, c)[1..] == Split(t, c);
    }
  }

  lemma SplitTwo(s: string, c: char, a: string, b: string)
    ensures Split(s, c) == [a, b] <==> s == a + [c] + b && c !in a && c !in b
  {
    if s == a + [c] + b && c !in a && c !in b {
      SplitCons(a, c, b);
      FindsFirst(b, c);
    }
    if Split(s, c) == [a, b] {
      JoinedSplit(s, c);
      assert [a, b][1..] == [b];
      assert [a, b][0] == a && [a, b][1] == b;
    }
  }

  lemma SplitThree(s: string, c: char, x: string, y: string, z: string)
    ensures Split(s, c) == [x, y, z] <==> s == x + [c] + (y + [c] + z) && c !in x && c !in y && c !in z
  {
    if s == x + [c] + (y + [c] + z) && c !in x && c !in y && c !in z {
      SplitTwo(y + [c] + z, c, y, z);
      SplitCons(x, c, y + [c] + z);
    }
    if Split(s, c) == [x, y, z] {
      JoinedSplit(s, c);
      var f := [x, y, z];
      assert f[1..] == [y, z] && [y, z][1..] == [z];
      assert Joined(f, c) == x + [c] + Joined([y, z], c);
      assert Joined([y, z], c) == y + [c] + Joined([z], c);
      assert f[0] == x && f[1] == y && f[2] == z;
    }
  }
}
