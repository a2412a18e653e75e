/** The persisted list of recently used downloads. */
module DownloadCache {
  import opened Basics

  const KEEP_LRU: nat := 5
  const STAGING_SUFFIX: string := ".staging"
  const RENAME_ATTEMPTS: nat := 20

  // ---------- the list ----------

  /** The list without a name. */
  function Without(l: seq<string>, name: string): seq<string> {
    if l == [] then []
    else if l[0] == name then Without(l[1..], name)
    else [l[0]] + Without(l[1..], name)
  }

  lemma {:induction false} WithoutIs(l: seq<string>, name: string)
    ensures forall n :: n in Without(l, name) <==> n in l && n != name
    ensures Distinct(l) ==> Distinct(Without(l, name)) && |Without(l, name)| == |l| - (if name in l then 1 else 0)
    ensures name !in l ==> Without(l, name) == l
    decreases |l|
  {
    if l != [] {
      WithoutIs(l[1..], name);
      assert l == [l[0]] + l[1..];
      assert Distinct(l) ==> l[0] !in l[1..];
    }
  }

  lemma {:induction false} WithoutConcat(a: seq<string>, b: seq<string>, name: string)
    ensures Without(a + b, name) == Without(a, name) + Without(b, name)
    decreases |a|
  {
    if a == [] {
      assert a + b == b;
    } else {
      WithoutConcat(a[1..], b, name);
      assert (a + b)[1..] == a[1..] + b && (a + b)[0] == a[0];
    }
  }

  /** `rest` is the list with the name taken out of its place, if it has one. */
  ghost predicate TakenOut(l: seq<string>, name: string, rest: seq<string>) {
    if name !in l then rest == l
    else exists i :: 0 <= i < |l| && l[i] == name && rest == l[..i] + l[i + 1..]
  }

  lemma WithoutTakesOut(l: seq<string>, name: string)
    requires Distinct(l)
    ensures TakenOut(l, name, Without(l, name))
    ensures forall rest :: TakenOut(l, name, rest) ==> rest == Without(l, name)
  {
    WithoutIs(l, name);
    forall i | 0 <= i < |l| && l[i] == name ensures Without(l, name) == l[..i] + l[i + 1..] {
      assert l == l[..i] + ([name] + l[i + 1..]);
      WithoutConcat(l[..i], [name] + l[i + 1..], name);
      WithoutIs(l[..i], name);
      WithoutIs(l[i + 1..], name);
    }
  }

  /** The list with a name moved, or added, to the front. */
  function Moved(l: seq<string>, name: string): seq<string> {
    [name] + Without(l, name)
  }

  lemma MovedIs(l: seq<string>, name: string)
    requires Distinct(l)
    ensures var m := Moved(l, name);
            && Distinct(m) && m[0] == name
            && |m| == |l| + (if name in l then 0 else 1)
            && (forall n :: n in m <==> n in l || n == name)
            && (|m| > 1 ==> m[|m| - 1] != name && m == m[..|m| - 1] + [m[|m| - 1]] && m[|m| - 1] !in m[..|m| - 1])
  {
    WithoutIs(l, name);
    DistinctCons(name, Without(l, name));
    if |Moved(l, name)| > 1 {
      LastApart(Moved(l, name));
    }
  }

  lemma DistinctCons(name: string, l: seq<string>)
    requires Distinct(l) && name !in l
    ensures Distinct([name] + l)
  {
  }

  lemma LastApart(m: seq<string>)
    requires Distinct(m) && |m| > 1
    ensures m[|m| - 1] != m[0] && m == m[..|m| - 1] + [m[|m| - 1]] && m[|m| - 1] !in m[..|m| - 1]
  {
  }

  /** The name comes first; the last one goes when there are too many and its directory is gone. */
  function Touched(l: seq<string>, name: string, gone: bool): seq<string> {
    var m := Moved(l, name);
    if |m| > KEEP_LRU && gone then m[..|m| - 1] else m
  }

  // ---------- touches only ----------

  /** The distinct names of a history of touches, most recent first. */
  function Recent(history: seq<string>): seq<string> {
    if history == [] then []
    else
      var last := history[|history| - 1];
      [last] + Without(Recent(history[..|history| - 1]), last)
  }

  lemma {:induction false} RecentDistinct(history: seq<string>)
    ensures Distinct(Recent(history))
    decreases |history|
  {
    if history != [] {
      RecentDistinct(history[..|history| - 1]);
      WithoutIs(Recent(history[..|history| - 1]), history[|history| - 1]);
    }
  }

  /** x was touched after the last touch of y. */
  ghost predicate TouchedAfter(history: seq<string>, x: string, y: string) {
    exists p :: 0 <= p < |history| && history[p] == x && y !in history[p..]
  }

  lemma AfterLater(history: seq<string>, last: string, x: string, y: string)
    requires TouchedAfter(history, x, y) && y != last
    ensures TouchedAfter(history + [last], x, y)
  {
    var p :| 0 <= p < |history| && history[p] == x && y !in history[p..];
    var more := history + [last];
    assert more[p..] == history[p..] + [last];
    assert more[p] == x;
  }

  lemma AfterLast(history: seq<string>, last: string, y: string)
    requires y != last
    ensures TouchedAfter(history + [last], last, y)
  {
    var more := history + [last];
    assert more[|history|] == last && more[|history|..] == [last];
  }

  /** Each name of the list was touched after the last touch of any name behind it. */
  ghost predicate InOrder(history: seq<string>, l: seq<string>) {
    forall i, j :: 0 <= i < j < |l| ==> TouchedAfter(history, l[i], l[j])
  }

  lemma MovedInOrder(history: seq<string>, l: seq<string>, last: string, i: nat, j: nat)
    requires InOrder(history, l) && i < j < |Moved(l, last)|
    ensures TouchedAfter(history + [last], Moved(l, last)[i], Moved(l, last)[j])
  {
    WithoutIs(l, last);
    assert Moved(l, last)[j] == Without(l, last)[j - 1];
    if i == 0 {
      AfterLast(history, last, Without(l, last)[j - 1]);
    } else {
      var i', j' := WithoutKeepsOrder(l, last, i - 1, j - 1);
      AfterLater(history, last, l[i'], l[j']);
    }
  }

  lemma {:induction false} RecentInOrder(history: seq<string>)
    ensures InOrder(history, Recent(history))
    decreases |history|
  {
    if history != [] {
      var k := |history| - 1;
      RecentInOrder(history[..k]);
      assert history == history[..k] + [history[k]];
      forall i, j | 0 <= i < j < |Recent(history)|
        ensures TouchedAfter(history, Recent(history)[i], Recent(history)[j])
      {
        MovedInOrder(history[..k], Recent(history[..k]), history[k], i, j);
      }
    }
  }

  /** The list holds the names of the history, and no others. */
  lemma {:induction false} RecentNames(history: seq<string>)
    ensures forall n :: n in Recent(history) <==> n in history
    decreases |history|
  {
    if history != [] {
      var k := |history| - 1;
      RecentNames(history[..k]);
      WithoutIs(Recent(history[..k]), history[k]);
      assert history == history[..k] + [history[k]];
    }
  }

  lemma {:induction false} WithoutKeepsOrder(l: seq<string>, name: string, i: nat, j: nat) returns (i': nat, j': nat)
    requires i < j < |Without(l, name)|
    ensures i' < j' < |l| && l[i'] == Without(l, name)[i] && l[j'] == Without(l, name)[j]
    decreases |l|
  {
    if l[0] == name {
      i', j' := WithoutKeepsOrder(l[1..], name, i, j);
      i', j' := i' + 1, j' + 1;
    } else if i > 0 {
      i', j' := WithoutKeepsOrder(l[1..], name, i - 1, j - 1);
      i', j' := i' + 1, j' + 1;
    } else {
      WithoutIs(l[1..], name);
      i' := 0;
      var n := Without(l, name)[j];
      assert n in l[1..];
      var k :| 0 <= k < |l[1..]| && l[1..][k] == n;
      j' := k + 1;
    }
  }

  lemma TakeWithout(l: seq<string>, k: nat, name: string)
    requires k <= |l| && Distinct(l)
    ensures var k' := if name in l[..k] then k - 1 else k;
            k' <= |Without(l, name)| && Without(l[..k], name) == Without(l, name)[..k']
  {
    var a, b := l[..k], l[k..];
    assert l == a + b;
    WithoutConcat(a, b, name);
    DistinctPart(l, k);
    WithoutIs(a, name);
  }

  lemma DistinctPart(l: seq<string>, k: nat)
    requires k <= |l| && Distinct(l)
    ensures Distinct(l[..k])
  {
  }

  lemma TakeCons(name: string, l: seq<string>, k: nat)
    requires k <= |l|
    ensures [name] + l[..k] == ([name] + l)[..k + 1]
  {
  }

  /** Touching the first names of a list gives the first names of the touched list. */
  lemma TouchTaken(l: seq<string>, k: nat, name: string)
    requires k <= |l| && Distinct(l)
    ensures var m := Moved(l[..k], name);
            |m| <= |Moved(l, name)| && m == Moved(l, name)[..|m|] && |m| == if name in l[..k] then k else k + 1
  {
    TakeWithout(l, k, name);
    TakeCons(name, Without(l, name), if name in l[..k] then k - 1 else k);
  }


  // ---------- the cache ----------

  /** The list, the directories on disk, those that `create` put in place, and the evictions that failed. */
  datatype Cache = Cache(lru: seq<string>, dirs: set<string>, produced: set<string>, stuck: nat)

  const EMPTY := Cache([], {}, {}, 0)

  /** What the outside world answers during one call. */
  datatype World = World(
    evictable: bool,          // the evicted directory can be removed
    stagingRemovable: bool,   // an old staging directory can be removed
    staged: bool,             // the staging directory can be made
    filled: bool,             // the caller fills it
    renames: seq<bool>)       // the rename attempts, in order

  function EvictStep(c: Cache, evictable: bool): Cache
    requires c.lru != []
  {
    var f := c.lru[|c.lru| - 1];
    if f !in c.dirs || evictable then
      c.(lru := c.lru[..|c.lru| - 1], dirs := c.dirs - {f}, produced := c.produced - {f})
    else c.(stuck := c.stuck + 1)
  }

  function TouchStep(c: Cache, name: string, evictable: bool): Cache {
    var moved := c.(lru := Moved(c.lru, name));
    if |moved.lru| <= KEEP_LRU then moved else EvictStep(moved, evictable)
  }

  function ExistsStep(c: Cache, name: string, evictable: bool): Cache {
    if name in c.dirs then TouchStep(c, name, evictable) else c
  }

  function DeleteStep(c: Cache, name: string, removable: bool): Cache {
    if name in c.dirs && !removable then c
    else c.(lru := Without(c.lru, name), dirs := c.dirs - {name}, produced := c.produced - {name})
  }

  function Staging(name: string): string {
    name + STAGING_SUFFIX
  }

  lemma {:induction false} RenamesExactly(renames: seq<bool>, from: nat)
    ensures Renames(renames, from) <==> exists i :: from <= i <= 20 && i < |renames| && renames[i]
    decreases RENAME_ATTEMPTS + 1 - from
  {
    if from <= RENAME_ATTEMPTS {
      RenamesExactly(renames, from + 1);
    }
  }

  /** One of the attempts succeeds. */
  predicate Renames(renames: seq<bool>, from: nat)
    decreases RENAME_ATTEMPTS + 1 - from
  {
    from <= RENAME_ATTEMPTS && ((from < |renames| && renames[from]) || Renames(renames, from + 1))
  }

  function Cleaned(c: Cache, temp: string, removable: bool): Cache {
    if removable then c.(dirs := c.dirs - {temp}, produced := c.produced - {temp}) else c
  }

  function Staged(c: Cache, temp: string, removable: bool): Cache {
    var cleaned := Cleaned(c, temp, removable);
    cleaned.(dirs := cleaned.dirs + {temp})
  }

  /** The staging directory is renamed, if it is still there and one of the attempts succeeds. */
  function Placed(c: Cache, name: string, temp: string, w: World): Cache {
    if temp in c.dirs && Renames(w.renames, 0) then
      c.(dirs := c.dirs - {temp} + {name}, produced := c.produced - {temp} + {name})
    else c
  }

  function CreateStep(c: Cache, name: string, w: World): Cache {
    var temp := Staging(name);
    if name in c.dirs then c
    else if !w.staged then Cleaned(c, temp, w.stagingRemovable)
    else if !w.filled then Staged(c, temp, w.stagingRemovable)
    else Placed(TouchStep(Staged(c, temp, w.stagingRemovable), name, w.evictable), name, temp, w)
  }

  // ---------- what every call keeps ----------

  ghost predicate Valid(c: Cache) {
    && Distinct(c.lru)
    && c.produced <= c.dirs
    && (forall n :: n in c.produced ==> n in c.lru)
    && |c.lru| <= 5 + c.stuck
  }

  /** The touched name is first and stays on disk, and whatever leaves the list leaves the disk with it. */
  lemma TouchKeeps(c: Cache, name: string, evictable: bool)
    requires Valid(c)
    ensures var t := TouchStep(c, name, evictable);
            && Valid(t) && |t.lru| > 0 && t.lru[0] == name
            && (name in c.dirs ==> name in t.dirs)
            && (forall n :: n in c.lru && n !in t.lru ==> n !in t.dirs && n !in t.produced)
            && (forall n :: n in c.produced && n !in t.produced ==> n !in t.lru)
            && t.lru == Touched(c.lru, name, t.stuck == c.stuck)
            && (evictable ==> t.stuck == c.stuck)
  {
    MovedIs(c.lru, name);
  }

  /**
   A touch, told from the list with the name taken out: the name goes to the front, and when there are then more than
   five, the last name goes with its directory, unless that is there and cannot be removed. All else stays.
   */
  lemma TouchExactly(c: Cache, name: string, evictable: bool, rest: seq<string>)
    requires Distinct(c.lru) && TakenOut(c.lru, name, rest)
    ensures var t, m := TouchStep(c, name, evictable), [name] + rest;
            var f := m[|m| - 1];
            if |m| <= 5 then t == c.(lru := m)
            else if f in c.dirs && !evictable then t == c.(lru := m, stuck := c.stuck + 1)
            else t == c.(lru := m[..|m| - 1], dirs := c.dirs - {f}, produced := c.produced - {f})
  {
    WithoutTakesOut(c.lru, name);
  }

  /** A deletion takes out the name and its directory and nothing else, or fails and changes nothing. */
  lemma DeleteExactly(c: Cache, name: string, removable: bool, rest: seq<string>)
    requires Distinct(c.lru) && TakenOut(c.lru, name, rest)
    ensures Step(c, Delete(name, removable)) ==
              if name in c.dirs && !removable then c
              else c.(lru := rest, dirs := c.dirs - {name}, produced := c.produced - {name})
  {
    WithoutTakesOut(c.lru, name);
  }

  /**
   A creation changes the directories of the name and of its staging directory, and evicts; nothing else. When it puts
   the directory in place, the staging directory is gone and the name is first in the list.
   */
  lemma CreateExactly(c: Cache, name: string, w: World, n: string)
    requires Valid(c)
    ensures var t, temp := Step(c, Create(name, w)), name + ".staging";
            && (name in c.dirs ==> t == c)
            && (name !in c.dirs && name in t.dirs ==> temp !in t.dirs && t.lru[..1] == [name] && name in t.produced)
            && t.lru == (if name in c.dirs || !w.staged || !w.filled then c.lru
                         else TouchStep(Staged(c, temp, w.stagingRemovable), name, w.evictable).lru)
            && (n !in {name, temp} && n !in c.dirs ==> n !in t.dirs)
            && (n !in {name, temp} && n in c.dirs && n !in t.dirs ==> n in c.lru && n !in t.lru)
  {
    var temp := Staging(name);
    assert |temp| == |name| + |STAGING_SUFFIX|;
    MovedIs(c.lru, name);
  }

  lemma CreateKeeps(c: Cache, name: string, w: World)
    requires Valid(c)
    ensures Valid(CreateStep(c, name, w))
    ensures w.evictable ==> CreateStep(c, name, w).stuck == c.stuck
  {
    var temp := Staging(name);
    assert |temp| == |name| + |STAGING_SUFFIX|;
    if name !in c.dirs && w.staged && w.filled {
      TouchKeeps(Staged(c, temp, w.stagingRemovable), name, w.evictable);
    }
  }

  datatype Touch = Touch(name: string, evictable: bool)

  function TouchRun(c: Cache, touches: seq<Touch>): Cache {
    if touches == [] then c
    else
      var last := touches[|touches| - 1];
      TouchStep(TouchRun(c, touches[..|touches| - 1]), last.name, last.evictable)
  }

  function Names(touches: seq<Touch>): seq<string> {
    if touches == [] then [] else Names(touches[..|touches| - 1]) + [touches[|touches| - 1].name]
  }

  /**
   The list holds the most recent names of a history, at least five if there are so many, and at most five and the
   stuck ones.
   */
  ghost predicate HoldsRecent(c: Cache, recent: seq<string>) {
    && |c.lru| <= |recent| && c.lru == recent[..|c.lru|]
    && (|c.lru| < 5 ==> c.lru == recent)
    && |c.lru| <= 5 + c.stuck
  }

  lemma TouchHoldsRecent(c: Cache, recent: seq<string>, touch: Touch)
    requires HoldsRecent(c, recent) && Distinct(recent)
    ensures HoldsRecent(TouchStep(c, touch.name, touch.evictable), Moved(recent, touch.name))
    ensures touch.evictable ==> TouchStep(c, touch.name, touch.evictable).stuck == c.stuck
  {
    TouchTaken(recent, |c.lru|, touch.name);
    var m, all := Moved(c.lru, touch.name), Moved(recent, touch.name);
    assert m == all[..|m|];
    if |m| > KEEP_LRU {
      assert m[..|m| - 1] == all[..|m| - 1];
    }
  }

  /**
   However touches and evictions go, the list holds the most recently touched names, most recent first: all of them up
   to five, and more than five only by evictions that failed. With none failed, it is the five most recent.
   */
  lemma {:induction false} FiveMostRecent(c: Cache, touches: seq<Touch>)
    requires c.lru == []
    ensures HoldsRecent(TouchRun(c, touches), Recent(Names(touches)))
    ensures (forall i :: 0 <= i < |touches| ==> touches[i].evictable) ==> TouchRun(c, touches).stuck == c.stuck
    decreases |touches|
  {
    if touches != [] {
      var n := |touches| - 1;
      FiveMostRecent(c, touches[..n]);
      RecentDistinct(Names(touches[..n]));
      TouchHoldsRecent(TouchRun(c, touches[..n]), Recent(Names(touches[..n])), touches[n]);
      assert Names(touches)[..|Names(touches)| - 1] == Names(touches[..n]);
    }
  }

  datatype Call =
    | Exists(name: string, evictable: bool)
    | Delete(name: string, removable: bool)
    | Create(name: string, world: World)

  function Step(c: Cache, call: Call): Cache {
    match call
    case Exists(name, evictable) => ExistsStep(c, name, evictable)
    case Delete(name, removable) => DeleteStep(c, name, removable)
    case Create(name, world) => CreateStep(c, name, world)
  }

  function Run(c: Cache, calls: seq<Call>): Cache {
    if calls == [] then c else Step(Run(c, calls[..|calls| - 1]), calls[|calls| - 1])
  }

  predicate Evictable(call: Call) {
    match call
    case Exists(_, evictable) => evictable
    case Delete(_, _) => true
    case Create(_, world) => world.evictable
  }

  /**
   Over any run: names are distinct, every directory that `create` put in place is listed until it is removed, and
   the list exceeds five names by no more than the number of failed evictions.
   */
  lemma {:induction false} RunKeeps(calls: seq<Call>)
    ensures Valid(Run(EMPTY, calls))
    ensures (forall i :: 0 <= i < |calls| ==> Evictable(calls[i])) ==>
              Run(EMPTY, calls).stuck == 0 && |Run(EMPTY, calls).lru| <= 5
    decreases |calls|
  {
    if calls != [] {
      var n := |calls| - 1;
      RunKeeps(calls[..n]);
      var c := Run(EMPTY, calls[..n]);
      match calls[n]
      case Exists(name, evictable) => TouchKeeps(c, name, evictable);
      case Delete(name, _) => WithoutIs(c.lru, name);
      case Create(name, world) => CreateKeeps(c, name, world);
    }
  }

  lemma CreateProduced(c: Cache, name: string, w: World, n: string)
    requires Valid(c) && n in c.produced && n !in CreateStep(c, name, w).produced && n != Staging(name)
    ensures n !in CreateStep(c, name, w).lru
  {
    var temp := Staging(name);
    TouchKeeps(Staged(c, temp, w.stagingRemovable), name, w.evictable);
  }

  /** A directory leaves only when it is evicted from the list, deleted, or in the way of a staging directory. */
  lemma ProducedStays(c: Cache, call: Call, n: string)
    requires Valid(c) && n in c.produced && n !in Step(c, call).produced
    ensures n !in Step(c, call).lru || (call.Create? && n == Staging(call.name))
  {
    match call
    case Exists(name, evictable) => TouchKeeps(c, name, evictable);
    case Delete(name, _) => WithoutIs(c.lru, name);
    case Create(name, w) =>
      if n != Staging(name) {
        CreateProduced(c, name, w, n);
      }
  }

  // ---------- the object ----------

  class DownloadCache {
    var lru: seq<string>
    var dirs: set<string>
    ghost var produced: set<string>
    ghost var stuck: nat

    ghost function C(): Cache
      reads this
    {
      Cache(lru, dirs, produced, stuck)
    }

    constructor ()
      ensures C() == EMPTY
    {
      lru, dirs, produced, stuck := [], {}, {}, 0;
    }

    method Touch(name: string, evictable: bool)
      requires Valid(C())
      modifies this
      ensures C() == TouchStep(old(C()), name, evictable) && Valid(C())
    {
      ghost var c := C();
      TouchKeeps(c, name, evictable);
      var l := RemoveName(lru, name);
      lru := [name] + l;
      if |lru| > KEEP_LRU {
        EvictLast(evictable);
      }
    }

    /** Removes the least recent name with its directory, unless the directory is there and cannot be removed. */
    method EvictLast(evictable: bool)
      requires lru != []
      modifies this
      ensures C() == EvictStep(old(C()), evictable)
    {
      var f := lru[|lru| - 1];
      if f !in dirs || evictable {
        dirs := dirs - {f};
        produced := produced - {f};
        lru := lru[..|lru| - 1];
      } else {
        stuck := stuck + 1;
      }
    }

    method Exists(name: string, evictable: bool) returns (found: bool)
      requires Valid(C())
      modifies this
      ensures C() == ExistsStep(old(C()), name, evictable) && Valid(C())
      ensures found == (name in old(dirs)) && (found ==> name in dirs && lru[..1] == [name])
      ensures !found ==> C() == old(C())
    {
      found := name in dirs;
      if found {
        TouchKeeps(C(), name, evictable);
        Touch(name, evictable);
      }
    }

    method Delete(name: string, removable: bool) returns (ok: bool)
      requires Valid(C())
      modifies this
      ensures C() == DeleteStep(old(C()), name, removable) && Valid(C())
      ensures ok <==> name !in old(dirs) || removable
      ensures ok ==> dirs == old(dirs) - {name} && TakenOut(old(lru), name, lru)
      ensures !ok ==> C() == old(C())
    {
      if name in dirs {
        if !removable {
          return false;
        }
        dirs := dirs - {name};
        produced := produced - {name};
      }
      WithoutIs(lru, name);
      WithoutTakesOut(lru, name);
      lru := RemoveName(lru, name);
      return true;
    }

    /** Stages, touches, then renames with retries; the name is listed before its directory appears. */
    method Create(name: string, w: World) returns (ok: bool)
      requires Valid(C())
      modifies this
      ensures C() == CreateStep(old(C()), name, w) && Valid(C())
      ensures ok <==> name in dirs
      ensures ok && name !in old(dirs) ==> name + ".staging" !in dirs
    {
      CreateKeeps(C(), name, w);
      if name in dirs {
        return true;
      }
      var temp := Staging(name);
      assert |temp| == |name| + |STAGING_SUFFIX|;
      Stage(temp, w);
      if !w.staged || !w.filled {
        return false;
      }
      ok := PutInPlace(name, temp, w);
    }

    /** An old staging directory is removed, if it can be, and a new one is made, if it can be. */
    method Stage(temp: string, w: World)
      requires Valid(C())
      modifies this`dirs, this`produced
      ensures C() == if w.staged then Staged(old(C()), temp, w.stagingRemovable)
                     else Cleaned(old(C()), temp, w.stagingRemovable)
      ensures Valid(C()) && forall n :: n != temp ==> (n in dirs <==> n in old(dirs))
    {
      if w.stagingRemovable {
        dirs := dirs - {temp};
        produced := produced - {temp};
      }
      if w.staged {
        dirs := dirs + {temp};
      }
    }

    method PutInPlace(name: string, temp: string, w: World) returns (ok: bool)
      requires Valid(C()) && name !in dirs && temp != name
      modifies this
      ensures ok <==> name in dirs
      ensures ok ==> temp !in dirs
      ensures C() == Placed(TouchStep(old(C()), name, w.evictable), name, temp, w)
    {
      TouchKeeps(C(), name, w.evictable);
      Touch(name, w.evictable);
      ok := RenameWithRetries(temp in dirs, w.renames);
      if ok {
        dirs := dirs - {temp} + {name};
        produced := produced - {temp} + {name};
      }
    }
  }

  /** The rename is tried again until it succeeds or the last attempt has failed. */
  method RenameWithRetries(present: bool, renames: seq<bool>) returns (ok: bool)
    ensures ok <==> present && Renames(renames, 0)
    ensures ok <==> present && exists i :: 0 <= i <= 20 && i < |renames| && renames[i]
  {
    RenamesExactly(renames, 0);
    var attempt := 0;
    while attempt <= RENAME_ATTEMPTS
      invariant attempt <= RENAME_ATTEMPTS + 1
      invariant present ==> (Renames(renames, 0) <==> Renames(renames, attempt))
      decreases RENAME_ATTEMPTS + 1 - attempt
    {
      if present && attempt < |renames| && renames[attempt] {
        return true;
      }
      attempt := attempt + 1;
    }
    return false;
  }

  /** Removes the first occurrence of a name; in a list of distinct names, the only one. */
  method RemoveName(l: seq<string>, name: string) returns (r: seq<string>)
    requires Distinct(l)
    ensures r == Without(l, name)
  {
    for i := 0 to |l|
      invariant name !in l[..i]
    {
      if l[i] == name {
        assert l == l[..i] + ([name] + l[i + 1..]);
        WithoutConcat(l[..i], [name] + l[i + 1..], name);
        WithoutIs(l[..i], name);
        WithoutIs(l[i + 1..], name);
        return l[..i] + l[i + 1..];
      }
    }
    WithoutIs(l, name);
    return l;
  }
}
