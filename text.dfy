/** The JavaScript string built-ins the dashboard relies on, written out:
    `indexOf`, `split` on a literal separator, `replace` of the first
    occurrence of a literal pattern, and `toLowerCase`. */
module Text {
  import opened Wrappers

  /** `pat` occurs in `s` starting at index `i`. */
  predicate OccursAt(s: string, pat: string, i: nat)
  {
    i + |pat| <= |s| && s[i..i + |pat|] == pat
  }

  ghost predicate Contains(s: string, pat: string)
  {
    exists i: nat :: OccursAt(s, pat, i)
  }

  /** The first index at or after `from` where `pat` occurs (`indexOf`). */
  function FindFrom(s: string, pat: string, from: nat): (r: Option<nat>)
    requires from <= |s|
    ensures r.Some? ==> from <= r.value && OccursAt(s, pat, r.value)
    ensures r.Some? ==> forall j: nat :: from <= j < r.value ==> !OccursAt(s, pat, j)
    ensures r.None? ==> forall j: nat :: from <= j ==> !OccursAt(s, pat, j)
    decreases |s| - from
  {
    if from + |pat| > |s| then None
    else if s[from..from + |pat|] == pat then Some(from)
    else FindFrom(s, pat, from + 1)
  }

  function Find(s: string, pat: string): (r: Option<nat>)
  {
    FindFrom(s, pat, 0)
  }

  /** `s.split(sep)` for a non-empty literal separator: the pieces between
      the non-overlapping occurrences of `sep`, taken from the left. */
  function Split(s: string, sep: string): (r: seq<string>)
    requires |sep| > 0
    ensures |r| >= 1
    decreases |s|
  {
    match Find(s, sep)
    case None => [s]
    case Some(i) => [s[..i]] + Split(s[i + |sep|..], sep)
  }

  /** `fields.join(sep)`. */
  function Join(fields: seq<string>, sep: string): string
  {
    if |fields| == 0 then ""
    else if |fields| == 1 then fields[0]
    else fields[0] + sep + Join(fields[1..], sep)
  }

  lemma JoinCons(head: string, tail: seq<string>, sep: string)
    requires |tail| >= 1
    ensures Join([head] + tail, sep) == head + sep + Join(tail, sep)
  {
    assert ([head] + tail)[1..] == tail;
  }

  /** Splitting loses nothing: joining the pieces back gives the input. */
  lemma {:induction false} JoinSplit(s: string, sep: string)
    requires |sep| > 0
    ensures Join(Split(s, sep), sep) == s
    decreases |s|
  {
    var r := Find(s, sep);
    if r.Some? {
      var i := r.value;
      var rest := s[i + |sep|..];
      assert Split(s, sep) == [s[..i]] + Split(rest, sep);
      JoinSplit(rest, sep);
      JoinCons(s[..i], Split(rest, sep), sep);
      assert s[i..i + |sep|] == sep;
      assert s == s[..i] + s[i..i + |sep|] + rest;
    } else {
      assert Split(s, sep) == [s];
    }
  }

  /** No piece of a split contains the separator. */
  lemma {:induction false} SplitPiecesFree(s: string, sep: string)
    requires |sep| > 0
    ensures forall f :: f in Split(s, sep) ==> !Contains(f, sep)
    decreases |s|
  {
    match Find(s, sep)
    case None =>
      assert forall j: nat :: !OccursAt(s, sep, j);
    case Some(i) =>
      SplitPiecesFree(s[i + |sep|..], sep);
      var head := s[..i];
      forall j: nat | OccursAt(head, sep, j)
        ensures false
      {
        assert head[j..j + |sep|] == s[j..j + |sep|];
        assert OccursAt(s, sep, j);
      }
  }

  /** A string without the separator's first character holds no separator. */
  lemma FindAbsent(f: string, sep: string)
    requires |sep| > 0 && sep[0] !in f
    ensures Find(f, sep) == None
  {
    forall i: nat | i + |sep| <= |f|
      ensures !OccursAt(f, sep, i)
    {
      assert f[i..i + |sep|][0] == f[i];
    }
  }

  /** When `a` does not hold the separator's first character, the first
      separator in `a + sep + b` is the one right after `a`. */
  lemma FindAfterFree(a: string, sep: string, b: string)
    requires |sep| > 0 && sep[0] !in a
    ensures Find(a + sep + b, sep) == Some(|a|)
  {
    var t := a + sep + b;
    assert t[|a|..|a| + |sep|] == sep;
    assert OccursAt(t, sep, |a|);
    forall j: nat | j < |a|
      ensures !OccursAt(t, sep, j)
    {
      assert t[j..j + |sep|][0] == t[j] == a[j];
    }
  }

  lemma SplitAt(t: string, sep: string, i: nat)
    requires |sep| > 0 && Find(t, sep) == Some(i)
    ensures Split(t, sep) == [t[..i]] + Split(t[i + |sep|..], sep)
  {
  }

  /** Splitting undoes joining when no field holds the separator's first
      character. */
  lemma {:induction false} SplitJoin(fields: seq<string>, sep: string)
    requires |sep| > 0 && |fields| >= 1
    requires forall f :: f in fields ==> sep[0] !in f
    ensures Split(Join(fields, sep), sep) == fields
    decreases |fields|
  {
    if |fields| == 1 {
      FindAbsent(fields[0], sep);
    } else {
      var head, tail := fields[0], fields[1..];
      var rest := Join(tail, sep);
      var t := head + sep + rest;
      assert Join(fields, sep) == t;
      FindAfterFree(head, sep, rest);
      SplitAt(t, sep, |head|);
      assert t[..|head|] == head;
      assert t[|head| + |sep|..] == rest;
      assert forall f :: f in tail ==> f in fields;
      SplitJoin(tail, sep);
      assert fields == [head] + tail;
    }
  }

  /** `s.replace(pat, rep)` with a literal string pattern: only the first
      occurrence, matched case-sensitively, is replaced. */
  function ReplaceFirst(s: string, pat: string, rep: string): string
  {
    match Find(s, pat)
    case None => s
    case Some(i) => s[..i] + rep + s[i + |pat|..]
  }

  /** The first occurrence of `pat` is the one `Find` reports. */
  lemma FindFirst(s: string, pat: string, i: nat)
    requires OccursAt(s, pat, i)
    requires forall j: nat :: j < i ==> !OccursAt(s, pat, j)
    ensures Find(s, pat) == Some(i)
  {
    var r := Find(s, pat);
    assert r.Some?;
    assert !(r.value < i);
  }

  /** What `ReplaceFirst` does, stated against the occurrences of `pat`:
      nothing changes without one; otherwise exactly the first one is
      rewritten and everything around it is kept. */
  lemma ReplaceFirstSpec(s: string, pat: string, rep: string)
    ensures !Contains(s, pat) ==> ReplaceFirst(s, pat, rep) == s
    ensures forall i: nat ::
      OccursAt(s, pat, i) && (forall j: nat :: j < i ==> !OccursAt(s, pat, j)) ==>
        ReplaceFirst(s, pat, rep) == s[..i] + rep + s[i + |pat|..]
  {
    forall i: nat | OccursAt(s, pat, i) && (forall j: nat :: j < i ==> !OccursAt(s, pat, j))
      ensures ReplaceFirst(s, pat, rep) == s[..i] + rep + s[i + |pat|..]
    {
      FindFirst(s, pat, i);
    }
  }

  predicate IsUpper(c: char)
  {
    'A' <= c <= 'Z'
  }

  function LowerChar(c: char): char
  {
    if IsUpper(c) then (c as int + 32) as char else c
  }

  /** `toLowerCase`, on the ASCII letters. */
  function Lower(s: string): string
  {
    seq(|s|, i requires 0 <= i < |s| => LowerChar(s[i]))
  }

  /** Lower-casing keeps the length, leaves no upper-case letter, changes
      only upper-case letters, and doing it twice is doing it once. */
  lemma LowerSpec(s: string)
    ensures |Lower(s)| == |s|
    ensures forall i :: 0 <= i < |s| ==> !IsUpper(Lower(s)[i])
    ensures forall i :: 0 <= i < |s| && !IsUpper(s[i]) ==> Lower(s)[i] == s[i]
    ensures forall i :: 0 <= i < |s| && IsUpper(s[i]) ==>
      Lower(s)[i] as int - 'a' as int == s[i] as int - 'A' as int
    ensures Lower(Lower(s)) == Lower(s)
  {
  }
}
