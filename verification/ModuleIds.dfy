/** Normalisation of module ids by repeated rewriting, against a path normaliser that uses a stack. */
module ModuleIds {
  import opened Basics

  // ---------- segments ----------

  /** The first slash at or after i, or the end of the string. */
  function SegmentEnd(r: string, i: nat): (j: nat)
    requires i <= |r|
    ensures i <= j <= |r| && (j < |r| ==> r[j] == '/') && forall k :: i <= k < j ==> r[k] != '/'
    decreases |r| - i
  {
    if i == |r| || r[i] == '/' then i else SegmentEnd(r, i + 1)
  }

  function Split(r: string): (segs: seq<string>)
    ensures |segs| >= 1
  {
    var k := SegmentEnd(r, 0);
    if k == |r| then [r] else [r[..k]] + Split(r[k + 1..])
  }

  function Join(segs: seq<string>): string
    requires |segs| >= 1
  {
    if |segs| == 1 then segs[0] else segs[0] + "/" + Join(segs[1..])
  }

  /** A string is two parts with a slash between them. */
  ghost predicate Slashed(r: string, a: string, b: string) {
    |r| == |a| + 1 + |b| && r[..|a|] == a && r[|a|] == '/' && r[|a| + 1..] == b
  }

  lemma SlashedAt(r: string, i: nat)
    requires i < |r| && r[i] == '/'
    ensures Slashed(r, r[..i], r[i + 1..])
  {
  }

  lemma SlashedJoin(a: string, b: string)
    ensures Slashed(a + "/" + b, a, b)
  {
  }

  lemma SlashedIs(r: string, a: string, b: string)
    requires Slashed(r, a, b)
    ensures r == a + "/" + b
  {
    assert r == r[..|a|] + [r[|a|]] + r[|a| + 1..];
  }

  lemma SplitWhole(s: string)
    requires '/' !in s
    ensures Split(s) == [s]
  {
    assert SegmentEnd(s, 0) == |s|;
  }

  lemma SplitHead(r: string, s: string, b: string)
    requires '/' !in s && Slashed(r, s, b)
    ensures Split(r) == [s] + Split(b)
  {
    assert forall k :: 0 <= k < |s| ==> r[k] == r[..|s|][k];
    assert SegmentEnd(r, 0) == |s|;
  }

  lemma ConsConcat(s: string, a: seq<string>, b: seq<string>)
    ensures [s] + (a + b) == [s] + a + b
  {
  }

  /** The segments of two parts joined by a slash are the segments of the parts. */
  lemma {:induction false} SplitParts(r: string, a: string, b: string)
    requires Slashed(r, a, b)
    ensures Split(r) == Split(a) + Split(b)
    decreases |a|
  {
    var k := SegmentEnd(a, 0);
    if k == |a| {
      SplitWhole(a);
      SplitHead(r, a, b);
    } else {
      var s, a', r' := a[..k], a[k + 1..], r[k + 1..];
      CutFirst(r, a, b, k);
      SplitParts(r', a', b);
      SplitHead(r, s, r');
      SplitHead(a, s, a');
      ConsConcat(s, Split(a'), Split(b));
    }
  }

  lemma CutFirst(r: string, a: string, b: string, k: nat)
    requires Slashed(r, a, b) && k < |a| && a[k] == '/'
    ensures Slashed(r[k + 1..], a[k + 1..], b) && Slashed(r, a[..k], r[k + 1..]) && Slashed(a, a[..k], a[k + 1..])
  {
    assert forall i :: 0 <= i < |a| ==> r[i] == r[..|a|][i];
  }

  lemma {:induction false} JoinSplit(r: string)
    ensures Join(Split(r)) == r
    ensures forall i :: 0 <= i < |Split(r)| ==> '/' !in Split(r)[i]
    decreases |r|
  {
    var k := SegmentEnd(r, 0);
    if k < |r| {
      JoinSplit(r[k + 1..]);
      assert Split(r)[1..] == Split(r[k + 1..]);
      SlashedAt(r, k);
      SlashedIs(r, r[..k], r[k + 1..]);
    }
  }

  lemma {:induction false} JoinConcat(a: seq<string>, b: seq<string>)
    requires |a| >= 1 && |b| >= 1
    ensures Join(a + b) == Join(a) + "/" + Join(b)
    decreases |a|
  {
    assert (a + b)[1..] == a[1..] + b;
    if |a| > 1 {
      JoinConcat(a[1..], b);
    } else {
      assert a[1..] + b == b;
    }
  }

  // ---------- the stack normaliser ----------

  /** A segment that `..` takes back: not another `..`, and not an empty one. */
  predicate Poppable(s: string) {
    s != "" && s != ".."
  }

  function Push(stack: seq<string>, s: string): seq<string> {
    if s == "." then stack
    else if s == ".." && stack != [] && Poppable(stack[|stack| - 1]) then stack[..|stack| - 1]
    else stack + [s]
  }

  function Walk(stack: seq<string>, segs: seq<string>): seq<string>
    decreases |segs|
  {
    if segs == [] then stack else Walk(Push(stack, segs[0]), segs[1..])
  }

  /** All segments but the last are walked; the last names the module and stays as it is. */
  function Normal(segs: seq<string>): seq<string>
    requires |segs| >= 1
  {
    Walk([], segs[..|segs| - 1]) + [segs[|segs| - 1]]
  }

  lemma {:induction false} WalkConcat(stack: seq<string>, a: seq<string>, b: seq<string>)
    ensures Walk(stack, a + b) == Walk(Walk(stack, a), b)
    decreases |a|
  {
    if a == [] {
      assert a + b == b;
    } else {
      WalkConcat(Push(stack, a[0]), a[1..], b);
      assert (a + b)[1..] == a[1..] + b;
    }
  }

  lemma NormalOf(whole: seq<string>, init: seq<string>, last: string)
    requires whole == init + [last]
    ensures Normal(whole) == Walk([], init) + [last]
  {
    assert whole[..|whole| - 1] == init;
  }

  lemma NormalConcat(a: seq<string>, init: seq<string>, last: string)
    ensures Normal(a + (init + [last])) == Walk(Walk([], a), init) + [last]
  {
    assert a + (init + [last]) == (a + init) + [last];
    NormalOf(a + (init + [last]), a + init, last);
    WalkConcat([], a, init);
  }

  /** Segments that walk to nothing can be left out. */
  lemma NormalSkip(a: seq<string>, x: seq<string>, b: seq<string>)
    requires |b| >= 1 && Walk(Walk([], a), x) == Walk([], a)
    ensures Normal(a + x + b) == Normal(a + b)
  {
    var init, last := b[..|b| - 1], b[|b| - 1];
    assert b == init + [last];
    WalkConcat([], a, x);
    NormalConcat(a + x, init, last);
    NormalConcat(a, init, last);
  }

  lemma SelfSkips(stack: seq<string>)
    ensures Walk(stack, ["."]) == stack
  {
    assert ["."][1..] == [];
    assert Walk(stack, ["."]) == Walk(Push(stack, "."), []);
  }

  lemma FirstSelfSkips(b: seq<string>)
    requires |b| >= 1
    ensures Normal(["."] + b) == Normal(b)
  {
    SelfSkips([]);
    NormalSkip([], ["."], b);
    assert [] + ["."] == ["."];
    assert [] + b == b;
  }

  lemma ParentSkips(stack: seq<string>, s: string)
    requires Poppable(s) && s != "."
    ensures Walk(stack, [s, ".."]) == stack
  {
    var pushed := stack + [s];
    assert [s, ".."][1..] == [".."] && [".."][1..] == [];
    assert Walk(stack, [s, ".."]) == Walk(pushed, [".."]);
    assert Walk(pushed, [".."]) == Walk(Push(pushed, ".."), []);
    assert pushed[..|pushed| - 1] == stack;
  }

  /** What `.` and `..` mean: inside a path, `.` may be left out, and so may a name and the `..` after it. */
  lemma NormalRewrites(a: seq<string>, s: string, b: seq<string>)
    requires |b| >= 1
    ensures Normal(a + ["."] + b) == Normal(a + b)
    ensures s !in {"", ".", ".."} ==> Normal(a + [s, ".."] + b) == Normal(a + b)
  {
    SelfSkips(Walk([], a));
    NormalSkip(a, ["."], b);
    if s !in {"", ".", ".."} {
      ParentSkips(Walk([], a), s);
      NormalSkip(a, [s, ".."], b);
    }
  }

  /** A `..` takes back exactly the segments that are neither empty nor dots. */
  lemma ParentTakesExactly(s: string, t: string)
    ensures Normal([s, "..", t]) == [t] <==> s !in {"", ".", ".."}
  {
    assert [s, "..", t] == [] + [s, ".."] + [t] && [] + [t] == [t];
    NormalOf([s, "..", t], [s, ".."], t);
    assert [s, ".."][1..] == [".."] && [".."][1..] == [];
    if s !in {"", ".", ".."} {
      ParentSkips([], s);
    } else {
      var stack := Push([], s);
      assert Walk([], [s, ".."]) == Walk(stack, [".."]) == Walk(Push(stack, ".."), []);
      assert Push(stack, "..") == stack + [".."];
    }
  }

  // ---------- irreducible segments ----------

  /** A segment and a `..` after it that is not the last. */
  predicate PairAt(segs: seq<string>, k: nat) {
    k + 2 < |segs| && Poppable(segs[k]) && segs[k + 1] == ".."
  }

  ghost predicate NoSelf(segs: seq<string>, from: nat) {
    forall k :: from <= k < |segs| - 1 ==> segs[k] != "."
  }

  ghost predicate NoPair(segs: seq<string>, from: nat) {
    forall k :: from <= k ==> !PairAt(segs, k)
  }

  lemma {:induction false} IrreducibleWalk(segs: seq<string>, n: nat)
    requires n < |segs| && NoSelf(segs, 0) && NoPair(segs, 0)
    ensures Walk([], segs[..n]) == segs[..n]
    decreases n
  {
    if n > 0 {
      IrreducibleWalk(segs, n - 1);
      assert segs[..n] == segs[..n - 1] + [segs[n - 1]];
      WalkConcat([], segs[..n - 1], [segs[n - 1]]);
      assert [segs[n - 1]][1..] == [];
      var stack := segs[..n - 1];
      assert Walk(stack, [segs[n - 1]]) == Walk(Push(stack, segs[n - 1]), []);
      assert n >= 2 ==> !PairAt(segs, n - 2);
    }
  }

  /** What cannot be rewritten is in normal form. */
  lemma IrreducibleIsNormal(segs: seq<string>)
    requires |segs| >= 1 && forall k :: 0 <= k < |segs| - 1 ==> segs[k] != "."
    requires forall k :: 0 <= k < |segs| - 2 && segs[k] !in {"", ".."} ==> segs[k + 1] != ".."
    ensures Normal(segs) == segs
  {
    assert NoPair(segs, 0);
    IrreducibleWalk(segs, |segs| - 1);
    assert segs[..|segs| - 1] + [segs[|segs| - 1]] == segs;
  }

  // ---------- the rewriting patterns ----------

  predicate SelfAt(r: string, i: nat) {
    i + 3 <= |r| && r[i..i + 3] == "/./"
  }

  /** A slash, a segment that the pattern matches, and `/../` after it. */
  predicate ParentAt(r: string, i: nat) {
    i < |r| && r[i] == '/' && PairFrom(r, i + 1)
  }

  /** The alternatives of the pattern: one character, two that are not both dots, or three and more. */
  predicate MatchesSegment(s: string) {
    |s| == 1 || (|s| == 2 && s[1] != '.') || (|s| == 2 && s[0] != '.') || |s| >= 3
  }

  lemma MatchesExactly(s: string)
    ensures MatchesSegment(s) <==> Poppable(s)
  {
    if |s| == 2 {
      assert s == [s[0], s[1]];
    }
  }

  /** A segment that the pattern matches starts at i, and `/../` follows it. */
  predicate PairFrom(r: string, i: nat)
    requires i <= |r|
  {
    var j := SegmentEnd(r, i);
    j + 4 <= |r| && r[j..j + 4] == "/../" && MatchesSegment(r[i..j])
  }

  function FindSelf(r: string, i: nat): (m: Option<nat>)
    ensures m.Some? ==> SelfAt(r, m.value)
    ensures forall k :: i <= k && (m.Some? ==> k < m.value) ==> !SelfAt(r, k)
    decreases |r| - i
  {
    if i >= |r| then None else if SelfAt(r, i) then Some(i) else FindSelf(r, i + 1)
  }

  function FindParent(r: string, i: nat): (m: Option<nat>)
    ensures m.Some? ==> ParentAt(r, m.value)
    ensures forall k :: i <= k && (m.Some? ==> k < m.value) ==> !ParentAt(r, k)
    decreases |r| - i
  {
    if i >= |r| then None else if ParentAt(r, i) then Some(i) else FindParent(r, i + 1)
  }

  /** The text around a `/./`. */
  lemma SelfText(r: string, i: nat)
    requires SelfAt(r, i)
    ensures Slashed(r, r[..i], r[i + 1..]) && Slashed(r[i + 1..], ".", r[i + 3..])
  {
    var m := r[i..i + 3];
    assert m[0] == r[i] && m[1] == r[i + 1] && m[2] == r[i + 2];
    assert r[i + 1..][..1] == ".";
  }

  lemma Insert(a: seq<string>, x: seq<string>, b: seq<string>)
    ensures a + (x + b) == a + x + b
  {
  }

  lemma SelfSplits(r: string, i: nat, r': string)
    requires SelfAt(r, i) && Slashed(r', r[..i], r[i + 3..])
    ensures Split(r) == Split(r[..i]) + ["."] + Split(r[i + 3..])
    ensures Split(r') == Split(r[..i]) + Split(r[i + 3..])
  {
    var a, c, b := r[..i], r[i + 1..], r[i + 3..];
    SelfText(r, i);
    SplitParts(r, a, c);
    SplitHead(c, ".", b);
    SplitParts(r', a, b);
    Insert(Split(a), ["."], Split(b));
  }

  /** The text of a segment and `/../` after it. */
  lemma PairText(r: string, j: nat)
    requires j + 4 <= |r| && r[j..j + 4] == "/../"
    ensures Slashed(r, r[..j], r[j + 1..]) && Slashed(r[j + 1..], "..", r[j + 4..])
  {
    var m := r[j..j + 4];
    assert m[0] == r[j] && m[1] == r[j + 1] && m[2] == r[j + 2] && m[3] == r[j + 3];
    assert r[j + 1..][..2] == "..";
  }

  lemma PairSplits(r: string, j: nat)
    requires j + 4 <= |r| && r[j..j + 4] == "/../" && '/' !in r[..j]
    ensures Split(r) == [r[..j], ".."] + Split(r[j + 4..])
  {
    PairText(r, j);
    PairSegments(r, r[..j], r[j + 1..], r[j + 4..]);
  }

  lemma PairSegments(r: string, s: string, t: string, b: string)
    requires Slashed(r, s, t) && Slashed(t, "..", b) && '/' !in s
    ensures Split(r) == [s, ".."] + Split(b)
  {
    SplitHead(r, s, t);
    SplitHead(t, "..", b);
    assert [s] + ([".."] + Split(b)) == [s, ".."] + Split(b);
  }

  lemma ParentText(r: string, i: nat, j: nat)
    requires i < j && j + 4 <= |r| && r[i] == '/' && r[j..j + 4] == "/../"
    ensures Slashed(r, r[..i], r[i + 1..]) && Slashed(r[i + 1..], r[i + 1..j], r[j + 1..])
  {
    assert r[j..j + 4][0] == r[j];
  }

  lemma ParentSegments(r: string, a: string, c: string, s: string, b: string)
    requires Slashed(r, a, c) && Split(c) == [s, ".."] + Split(b)
    ensures Split(r) == Split(a) + [s, ".."] + Split(b)
  {
    SplitParts(r, a, c);
    Insert(Split(a), [s, ".."], Split(b));
  }

  lemma ParentSplits(r: string, i: nat, j: nat)
    requires i < j && j + 4 <= |r| && r[i] == '/' && r[j..j + 4] == "/../" && '/' !in r[i + 1..j]
    ensures Split(r) == Split(r[..i]) + [r[i + 1..j], ".."] + Split(r[j + 4..])
  {
    ParentText(r, i, j);
    PairText(r, j);
    PairSegments(r[i + 1..], r[i + 1..j], r[j + 1..], r[j + 4..]);
    ParentSegments(r, r[..i], r[i + 1..], r[i + 1..j], r[j + 4..]);
  }

  lemma JoinAround(r: string, segs: seq<string>, k: nat)
    requires 1 <= k < |segs| && r == Join(segs)
    ensures Slashed(r, Join(segs[..k]), Join(segs[k..]))
  {
    assert segs == segs[..k] + segs[k..];
    JoinConcat(segs[..k], segs[k..]);
    SlashedJoin(Join(segs[..k]), Join(segs[k..]));
  }

  lemma SelfGivesMatch(r: string, k: nat)
    requires 1 <= k < |Split(r)| - 1 && Split(r)[k] == "."
    ensures exists i :: SelfAt(r, i)
  {
    var segs := Split(r);
    JoinSplit(r);
    JoinAround(r, segs, k);
    JoinAround(Join(segs[k..]), segs[k..], 1);
    assert segs[k..][..1] == ["."];
    SelfAround(r, Join(segs[..k]), Join(segs[k..]), Join(segs[k..][1..]));
  }

  lemma SelfAround(r: string, a: string, c: string, b: string)
    requires Slashed(r, a, c) && Slashed(c, ".", b)
    ensures SelfAt(r, |a|)
  {
    var i := |a|;
    assert c[..1][0] == '.';
    assert r[i + 1..][0] == c[0] && r[i + 1..][1] == c[1];
    assert r[i] == '/' && r[i + 1] == '.' && r[i + 2] == '/';
    assert r[i..i + 3] == [r[i], r[i + 1], r[i + 2]];
  }

  /** No match left means no segment left to rewrite. */
  lemma NoSelfLeft(r: string)
    requires forall k :: 0 <= k ==> !SelfAt(r, k)
    ensures NoSelf(Split(r), 1)
  {
    forall k | 1 <= k < |Split(r)| - 1 ensures Split(r)[k] != "." {
      if Split(r)[k] == "." {
        SelfGivesMatch(r, k);
      }
    }
  }

  lemma PairAround(c: string, s: string, t: string, b: string)
    requires Slashed(c, s, t) && Slashed(t, "..", b) && '/' !in s && Poppable(s)
    ensures PairFrom(c, 0)
  {
    MatchesExactly(s);
    var j := |s|;
    assert forall k :: 0 <= k < j ==> c[k] == c[..j][k];
    assert SegmentEnd(c, 0) == j;
    assert t[..2][0] == '.' && t[..2][1] == '.';
    assert c[j + 1..][0] == t[0] && c[j + 1..][1] == t[1] && c[j + 1..][2] == t[2];
    assert c[j..j + 4] == [c[j], c[j + 1], c[j + 2], c[j + 3]];
  }

  lemma PairJoins(segs: seq<string>)
    requires PairAt(segs, 0) && '/' !in segs[0]
    ensures PairFrom(Join(segs), 0)
  {
    var c, t := Join(segs), Join(segs[1..]);
    JoinAround(c, segs, 1);
    assert segs[..1] == [segs[0]];
    JoinAround(t, segs[1..], 1);
    assert segs[1..][..1] == [".."];
    PairAround(c, segs[0], t, Join(segs[1..][1..]));
  }

  lemma {:induction false} SegmentEndShift(r: string, i: nat, k: nat)
    requires i + k <= |r|
    ensures SegmentEnd(r[i..], k) + i == SegmentEnd(r, i + k)
    decreases |r| - i - k
  {
    if i + k < |r| && r[i + k] != '/' {
      SegmentEndShift(r, i, k + 1);
    }
  }

  lemma PairFromShift(r: string, i: nat)
    requires i <= |r| && PairFrom(r[i..], 0)
    ensures PairFrom(r, i)
  {
    var c := r[i..];
    SegmentEndShift(r, i, 0);
    var j := SegmentEnd(c, 0);
    assert c[..j] == r[i..i + j] && c[j..j + 4] == r[i + j..i + j + 4];
  }

  lemma PairAfterSlash(r: string, a: string, c: string)
    requires Slashed(r, a, c) && PairFrom(c, 0)
    ensures ParentAt(r, |a|)
  {
    PairFromShift(r, |a| + 1);
  }

  lemma PairInside(r: string, segs: seq<string>, k: nat)
    requires 1 <= k < |segs| && r == Join(segs) && PairAt(segs[k..], 0) && '/' !in segs[k..][0]
    ensures exists i :: ParentAt(r, i)
  {
    JoinAround(r, segs, k);
    PairJoins(segs[k..]);
    PairAfterSlash(r, Join(segs[..k]), Join(segs[k..]));
  }

  lemma PairTail(segs: seq<string>, k: nat)
    requires PairAt(segs, k)
    ensures PairAt(segs[k..], 0) && segs[k..][0] == segs[k]
  {
  }

  lemma PairGivesParent(r: string, k: nat)
    requires 1 <= k && PairAt(Split(r), k)
    ensures exists i :: ParentAt(r, i)
  {
    JoinSplit(r);
    PairTail(Split(r), k);
    PairInside(r, Split(r), k);
  }

  lemma NoPairLeft(r: string)
    requires forall k :: 0 <= k ==> !ParentAt(r, k)
    ensures NoPair(Split(r), 1)
  {
    forall k | 1 <= k ensures !PairAt(Split(r), k) {
      if PairAt(Split(r), k) {
        PairGivesParent(r, k);
      }
    }
  }

  // ---------- the normaliser of the source ----------

  /** Four rewrites: `/./` while there is one, a leading `./`, `/aa/../` while there is one, a leading `aa/../`. */
  method NormalizeModuleId(moduleId: string) returns (r: string)
    ensures Split(r) == Normal(Split(moduleId))
    ensures r == Join(Normal(Split(moduleId)))
    ensures forall k :: 0 <= k < |Split(r)| - 1 ==> Split(r)[k] != "."
    ensures forall k :: 0 <= k < |Split(r)| - 2 && Split(r)[k] !in {"", ".."} ==> Split(r)[k + 1] != ".."
  {
    r := RemoveSelfSegments(moduleId);
    r := RemoveParentPairs(r);
    JoinSplit(r);
    NormalIsIrreducible(Split(moduleId));
  }

  method RemoveSelfSegments(moduleId: string) returns (r: string)
    ensures Normal(Split(r)) == Normal(Split(moduleId)) && NoSelf(Split(r), 0)
  {
    r := moduleId;
    while FindSelf(r, 0).Some?
      invariant Normal(Split(r)) == Normal(Split(moduleId))
      decreases |r|
    {
      var i := FindSelf(r, 0).value;
      var a, b := r[..i], r[i + 3..];
      SlashedJoin(a, b);
      SelfSplits(r, i, a + "/" + b);
      SelfSkips(Walk([], Split(a)));
      NormalSkip(Split(a), ["."], Split(b));
      r := a + "/" + b;
    }
    NoSelfLeft(r);
    if |r| >= 2 && r[..2] == "./" {
      LeadingSelf(r);
      r := r[2..];
    } else {
      FirstNotSelf(r);
    }
  }

  lemma LeadingSelf(r: string)
    requires |r| >= 2 && r[..2] == "./" && NoSelf(Split(r), 1)
    ensures Normal(Split(r[2..])) == Normal(Split(r)) && NoSelf(Split(r[2..]), 0)
  {
    var b := r[2..];
    assert r[..2][0] == r[0] && r[..2][1] == r[1];
    assert r[..1] == ".";
    SplitHead(r, ".", b);
    FirstSelfSkips(Split(b));
    DropFirst(".", Split(b));
  }

  lemma DropFirst(s: string, b: seq<string>)
    requires NoSelf([s] + b, 1)
    ensures NoSelf(b, 0)
  {
    forall k | 0 <= k < |b| - 1 ensures b[k] != "." {
      assert ([s] + b)[k + 1] == b[k];
    }
  }

  lemma FirstSegment(r: string)
    ensures Split(r)[0] == r[..SegmentEnd(r, 0)] && (|Split(r)| > 1 <==> SegmentEnd(r, 0) < |r|)
  {
    assert SegmentEnd(r, 0) == |r| ==> r[..|r|] == r;
  }

  lemma SelfPrefix(r: string, k: nat)
    requires k < |r| && r[k] == '/' && r[..k] == "."
    ensures |r| >= 2 && r[..2] == "./"
  {
    assert k == 1 && r[..1][0] == r[0];
  }

  lemma FirstIsNotSelf(r: string)
    requires !(|r| >= 2 && r[..2] == "./")
    ensures |Split(r)| > 1 ==> Split(r)[0] != "."
  {
    FirstSegment(r);
    var k := SegmentEnd(r, 0);
    if k < |r| && r[..k] == "." {
      SelfPrefix(r, k);
    }
  }

  lemma NoneIsSelf(segs: seq<string>)
    requires NoSelf(segs, 1) && (|segs| > 1 ==> segs[0] != ".")
    ensures NoSelf(segs, 0)
  {
  }

  lemma FirstNotSelf(r: string)
    requires NoSelf(Split(r), 1) && !(|r| >= 2 && r[..2] == "./")
    ensures NoSelf(Split(r), 0)
  {
    FirstIsNotSelf(r);
    NoneIsSelf(Split(r));
  }

  lemma NoSelfSkip(a: seq<string>, x: seq<string>, b: seq<string>)
    requires |b| >= 1 && NoSelf(a + x + b, 0)
    ensures NoSelf(a + b, 0)
    ensures forall k :: 0 <= k < |x| ==> x[k] != "."
  {
    var whole := a + x + b;
    forall k | 0 <= k < |a + b| - 1 ensures (a + b)[k] != "." {
      if k < |a| {
        assert whole[k] == a[k];
      } else {
        assert whole[k + |x|] == b[k - |a|];
      }
    }
    forall k | 0 <= k < |x| ensures x[k] != "." {
      assert whole[|a| + k] == x[k];
    }
  }

  /** Leaving out a segment and its `..` changes nothing of the normal form. */
  lemma PairSkips(a: seq<string>, s: string, b: seq<string>)
    requires |b| >= 1 && Poppable(s) && NoSelf(a + [s, ".."] + b, 0)
    ensures Normal(a + [s, ".."] + b) == Normal(a + b) && NoSelf(a + b, 0)
  {
    NoSelfSkip(a, [s, ".."], b);
    assert [s, ".."][0] != ".";
    ParentSkips(Walk([], a), s);
    NormalSkip(a, [s, ".."], b);
  }

  /** A `/aa/../` is replaced by a slash. */
  lemma RemovePair(r: string, i: nat, j: nat, r': string)
    requires i < j && j + 4 <= |r| && r[i] == '/' && r[j..j + 4] == "/../"
    requires '/' !in r[i + 1..j] && Poppable(r[i + 1..j])
    requires Slashed(r', r[..i], r[j + 4..]) && NoSelf(Split(r), 0)
    ensures Normal(Split(r')) == Normal(Split(r)) && NoSelf(Split(r'), 0)
  {
    SplitParts(r', r[..i], r[j + 4..]);
    ParentSplits(r, i, j);
    PairSkips(Split(r[..i]), r[i + 1..j], Split(r[j + 4..]));
  }

  lemma RemoveFront(r: string)
    requires NoSelf(Split(r), 0) && NoPair(Split(r), 1) && PairFrom(r, 0)
    ensures var b := Split(r[SegmentEnd(r, 0) + 4..]);
            Normal(b) == Normal(Split(r)) && NoSelf(b, 0) && NoPair(b, 0)
  {
    var j := SegmentEnd(r, 0);
    MatchesExactly(r[..j]);
    PairSplits(r, j);
    RemoveFirstPair(Split(r), r[..j], Split(r[j + 4..]));
  }

  method RemoveParentPairs(id: string) returns (r: string)
    requires NoSelf(Split(id), 0)
    ensures Split(r) == Normal(Split(id))
  {
    r := id;
    while FindParent(r, 0).Some?
      invariant Normal(Split(r)) == Normal(Split(id)) && NoSelf(Split(r), 0)
      decreases |r|
    {
      var i := FindParent(r, 0).value;
      var j := SegmentEnd(r, i + 1);
      SlashedJoin(r[..i], r[j + 4..]);
      MatchesExactly(r[i + 1..j]);
      RemovePair(r, i, j, r[..i] + "/" + r[j + 4..]);
      r := r[..i] + "/" + r[j + 4..];
    }
    NoPairLeft(r);
    if PairFrom(r, 0) {
      RemoveFront(r);
      r := r[SegmentEnd(r, 0) + 4..];
    } else {
      FirstNotPair(r);
    }
    NoPairMeans(Split(r));
    IrreducibleIsNormal(Split(r));
  }

  lemma NoPairMeans(segs: seq<string>)
    requires NoPair(segs, 0)
    ensures forall k :: 0 <= k < |segs| - 2 && segs[k] !in {"", ".."} ==> segs[k + 1] != ".."
  {
    forall k | 0 <= k < |segs| - 2 && segs[k] !in {"", ".."} ensures segs[k + 1] != ".." {
      assert !PairAt(segs, k);
    }
  }

  /** One rewrite at the front is enough: what it uncovers was already irreducible. */
  lemma RemoveFirstPair(segs: seq<string>, s: string, b: seq<string>)
    requires |b| >= 1 && segs == [s, ".."] + b && Poppable(s) && NoSelf(segs, 0) && NoPair(segs, 1)
    ensures Normal(segs) == Normal(b) && NoSelf(b, 0) && NoPair(b, 0)
  {
    assert segs == [] + [s, ".."] + b && [] + b == b;
    PairSkips([], s, b);
    DropKeepsNoPair(segs, 2);
    assert segs[2..] == b;
  }

  lemma DropKeepsNoPair(segs: seq<string>, n: nat)
    requires n <= |segs| && NoPair(segs, 1) && n >= 1
    ensures NoPair(segs[n..], 0)
  {
    forall k | 0 <= k ensures !PairAt(segs[n..], k) {
      assert !PairAt(segs, k + n);
    }
  }

  lemma FirstNotPair(r: string)
    requires NoPair(Split(r), 1) && !PairFrom(r, 0)
    ensures NoPair(Split(r), 0)
  {
    var segs := Split(r);
    JoinSplit(r);
    if PairAt(segs, 0) {
      PairJoins(segs);
    }
  }

  /** In normal form no segment but the last is `.`, and only an empty one or a `..` has a `..` after it. */
  lemma NormalIsIrreducible(segs: seq<string>)
    requires |segs| >= 1
    ensures var n := Normal(segs);
            && (forall k :: 0 <= k < |n| - 1 ==> n[k] != ".")
            && (forall k :: 0 <= k < |n| - 2 && n[k] !in {"", ".."} ==> n[k + 1] != "..")
  {
    WalkIsIrreducible([], segs[..|segs| - 1]);
    var n, w := Normal(segs), Walk([], segs[..|segs| - 1]);
    assert forall k :: 0 <= k < |n| - 1 ==> n[k] == w[k];
  }

  /** A normalised id is left alone by another normalisation. */
  lemma NormalIsFixed(segs: seq<string>)
    requires |segs| >= 1
    ensures Normal(Normal(segs)) == Normal(segs)
  {
    NormalIsIrreducible(segs);
    IrreducibleIsNormal(Normal(segs));
  }

  /** A stack without `.` and without a pair of which the second is a `..`. */
  ghost predicate Irreducible(stack: seq<string>) {
    && (forall k :: 0 <= k < |stack| ==> stack[k] != ".")
    && (forall k :: 0 <= k < |stack| - 1 && Poppable(stack[k]) ==> stack[k + 1] != "..")
  }

  lemma {:induction false} WalkIsIrreducible(stack: seq<string>, segs: seq<string>)
    requires Irreducible(stack)
    ensures Irreducible(Walk(stack, segs))
    decreases |segs|
  {
    if segs != [] {
      WalkIsIrreducible(Push(stack, segs[0]), segs[1..]);
    }
  }

  // ---------- resolving a dependency from a module ----------

  predicate StartsWith(s: string, p: string) {
    p <= s
  }

  predicate IsAbsolutePath(url: string) {
    StartsWith(url, "http://") || StartsWith(url, "https://") || StartsWith(url, "file://") || StartsWith(url, "/")
  }

  predicate IsRelative(id: string) {
    !IsAbsolutePath(id) && (StartsWith(id, "./") || StartsWith(id, "../"))
  }

  /** The last slash before n, or nothing. */
  function LastSlash(s: string, n: nat): (r: Option<nat>)
    requires n <= |s|
    ensures r.Some? ==> r.value < n && s[r.value] == '/'
    ensures forall k :: 0 <= k < n && (r.Some? ==> r.value < k) ==> s[k] != '/'
  {
    if n == 0 then None else if s[n - 1] == '/' then Some(n - 1) else LastSlash(s, n - 1)
  }

  function FromModulePath(from: string): string {
    match LastSlash(from, |from|)
    case None => ""
    case Some(i) => from[..i + 1]
  }

  /** The segments of the resolving module, its own name apart. */
  function Directory(from: string): seq<string> {
    var segs := Split(from);
    segs[..|segs| - 1]
  }

  lemma DirectoryParts(from: string, d: string, name: string)
    requires Slashed(from, d, name) && '/' !in name
    ensures Directory(from) == Split(d)
  {
    SplitParts(from, d, name);
    SplitWhole(name);
    assert (Split(d) + [name])[..|Split(d)|] == Split(d);
  }

  lemma InDirectory(from: string, d: string, name: string, path: string, id: string)
    requires Slashed(from, d, name) && '/' !in name && Slashed(path, d, id)
    ensures Split(path) == Directory(from) + Split(id)
  {
    DirectoryParts(from, d, name);
    SplitParts(path, d, id);
  }

  lemma AfterNothing(d: seq<string>, b: seq<string>)
    requires |d| == 0
    ensures b == d + b
  {
  }

  lemma NoDirectory(from: string, id: string)
    requires '/' !in from
    ensures Split(id) == Directory(from) + Split(id)
  {
    SplitWhole(from);
    AfterNothing(Directory(from), Split(id));
  }

  lemma Rejoined(from: string, i: nat, id: string)
    requires i < |from| && from[i] == '/'
    ensures Slashed(from[..i + 1] + id, from[..i], id)
  {
  }

  lemma FromPathSplits(from: string, id: string, path: string)
    requires path == FromModulePath(from) + id
    ensures Split(path) == Directory(from) + Split(id)
  {
    match LastSlash(from, |from|)
    case None =>
      assert path == id;
      NoDirectory(from, id);
    case Some(i) =>
      SlashedAt(from, i);
      Rejoined(from, i, id);
      InDirectory(from, from[..i], from[i + 1..], path, id);
  }

  /** The first segment is p exactly if the text starts with p and a slash. */
  lemma StartsWithSegment(r: string, p: string)
    requires '/' !in p
    ensures StartsWith(r, p + "/") <==> |Split(r)| > 1 && Split(r)[0] == p
  {
    FirstSegment(r);
    if StartsWith(r, p + "/") {
      assert forall i :: 0 <= i < |p| ==> r[i] == (p + "/")[i] == p[i];
      assert r[|p|] == (p + "/")[|p|];
      assert r[..|p|] == p;
    }
  }

  /** An id is relative exactly if its first segment is one or two dots, and not its last. */
  lemma RelativeExactly(id: string)
    ensures IsRelative(id) <==> |Split(id)| > 1 && Split(id)[0] in {".", ".."}
  {
    StartsWithSegment(id, ".");
    StartsWithSegment(id, "..");
    assert "." + "/" == "./" && ".." + "/" == "../";
    assert StartsWith(id, "./") ==> id[0] == "./"[0];
    assert StartsWith(id, "../") ==> id[0] == "../"[0];
    assert IsAbsolutePath(id) ==> id[0] in {"http://"[0], "https://"[0], "file://"[0], "/"[0]};
  }

  /** A relative id is read from the directory of the resolving module; any other id stays as it is. */
  method ResolveModule(from: string, id: string) returns (r: string)
    ensures if |Split(id)| > 1 && Split(id)[0] in {".", ".."}
            then Split(r) == Normal(Split(from)[..|Split(from)| - 1] + Split(id))
            else r == id
  {
    r := id;
    RelativeExactly(id);
    if IsRelative(id) {
      r := NormalizeModuleId(FromModulePath(from) + id);
      FromPathSplits(from, id, FromModulePath(from) + id);
    }
  }
}
