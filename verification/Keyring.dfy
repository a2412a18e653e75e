/** Storage of a sealed string in keyring entries of limited size. */
module Keyring {
  const CONTINUE_MARKER: string := "<MORE>"

  /** The passwords of the entries `vscode-cli-0`, `vscode-cli-1`, and so on. */
  type Entries = map<nat, string>

  datatype ReadResult = Missing | Failed | Value(text: string)

  predicate EndsWith(s: string, suffix: string) {
    |suffix| <= |s| && s[|s| - |suffix|..] == suffix
  }

  lemma EndsWithMeans(s: string, suffix: string)
    ensures EndsWith(s, suffix) <==> exists head :: s == head + suffix
  {
    if EndsWith(s, suffix) {
      assert s == s[..|s| - |suffix|] + suffix;
    }
    if head :| s == head + suffix {
      assert s[|head|..] == suffix;
    }
  }

  // ---------- what is stored ----------

  /** Full steps, each with the marker, then the shorter rest, if any, without it. */
  function Parts(sealed: string, step: nat): (parts: seq<string>)
    requires step > 0
    ensures sealed != "" ==> parts != []
  {
    if sealed == "" then []
    else if |sealed| < step then [sealed]
    else [sealed[..step] + CONTINUE_MARKER] + Parts(sealed[step..], step)
  }

  /** Every part fits the entry limit, and none is empty. */
  lemma {:induction false} PartsFit(sealed: string, step: nat, k: nat)
    requires step > 0 && k < |Parts(sealed, step)|
    ensures 0 < |Parts(sealed, step)[k]| <= step + |CONTINUE_MARKER|
    decreases k
  {
    if k > 0 {
      PartsFit(sealed[step..], step, k - 1);
    }
  }

  /** At a positive multiple of the step size every part carries the marker, and otherwise the last does not. */
  lemma {:induction false} PartsMarked(sealed: string, step: nat, k: nat)
    requires step > 0 && k < |Parts(sealed, step)| && !EndsWith(sealed, CONTINUE_MARKER)
    ensures EndsWith(Parts(sealed, step)[k], CONTINUE_MARKER) <==>
              k < |Parts(sealed, step)| - 1 || Multiple(|sealed|, step)
    decreases k
  {
    if |sealed| >= step {
      MarkedEndsWith(sealed[..step]);
      SuffixOfRest(sealed, step);
      if k > 0 {
        PartsMarked(sealed[step..], step, k - 1);
      }
    }
  }

  lemma MarkedEndsWith(s: string)
    ensures EndsWith(s + CONTINUE_MARKER, CONTINUE_MARKER)
    ensures (s + CONTINUE_MARKER)[..|s + CONTINUE_MARKER| - |CONTINUE_MARKER|] == s
  {
    assert (s + CONTINUE_MARKER)[|s|..] == CONTINUE_MARKER;
  }

  /** n is step taken some number of times. */
  predicate Multiple(n: nat, step: nat)
    requires step > 0
  {
    n == 0 || (n >= step && Multiple(n - step, step))
  }

  lemma {:induction false} MultipleIsModulo(n: nat, step: nat)
    requires step > 0
    ensures Multiple(n, step) <==> n % step == 0
    decreases n
  {
    if n >= step {
      MultipleIsModulo(n - step, step);
      ModuloStep(n, step);
    } else {
      ModuloSmall(n, step);
    }
  }

  lemma ModuloSmall(n: nat, step: nat)
    requires n < step
    ensures n % step == n
  {
    var q, m := n / step, n % step;
    assert q * step + m == n;
    SmallProduct(q, step, n - m);
  }

  lemma ModuloStep(n: nat, step: nat)
    requires 0 < step <= n
    ensures (n - step) % step == n % step
  {
    var q, m := n / step, n % step;
    var q', m' := (n - step) / step, (n - step) % step;
    assert q * step + m == n && q' * step + m' == n - step;
    assert (q - 1 - q') * step == q * step - step - q' * step;
    SmallProduct(q - 1 - q', step, m' - m);
  }

  lemma SmallProduct(d: int, step: int, e: int)
    requires step > 0 && d * step == e && -step < e < step
    ensures d == 0 && e == 0
  {
    if d >= 1 {
      ProductAtLeast(d, step);
    } else if d <= -1 {
      NegatedProduct(d, step);
      ProductAtLeast(-d, step);
    }
  }

  lemma NegatedProduct(d: int, step: int)
    ensures (-d) * step == -(d * step)
  {
  }

  lemma ProductAtLeast(d: int, step: int)
    requires d >= 1 && step >= 0
    ensures d * step >= step
  {
    assert d * step == (d - 1) * step + step;
    assert (d - 1) * step >= 0;
  }

  lemma SuffixOfRest(sealed: string, step: nat)
    requires step <= |sealed| && !EndsWith(sealed, CONTINUE_MARKER)
    ensures !EndsWith(sealed[step..], CONTINUE_MARKER)
  {
    var rest := sealed[step..];
    assert |CONTINUE_MARKER| <= |rest| ==>
        rest[|rest| - |CONTINUE_MARKER|..] == sealed[|sealed| - |CONTINUE_MARKER|..];
  }

  /** The entries once these parts are set, from entry 0 on. */
  function SetAll(store: Entries, parts: seq<string>): Entries {
    if parts == [] then store
    else SetAll(store, parts[..|parts| - 1])[|parts| - 1 := parts[|parts| - 1]]
  }

  lemma {:induction false} SetAllIs(store: Entries, parts: seq<string>)
    ensures var t := SetAll(store, parts);
            && (forall k :: k in t <==> k in store || 0 <= k < |parts|)
            && (forall k :: 0 <= k < |parts| ==> t[k] == parts[k])
            && (forall k :: k in store && k >= |parts| ==> t[k] == store[k])
    decreases |parts|
  {
    if parts != [] {
      SetAllIs(store, parts[..|parts| - 1]);
    }
  }

  // ---------- what is read ----------

  ghost function From(store: Entries, i: nat): set<nat> {
    set k | k in store && k >= i
  }

  ghost function Prefixed(text: string, r: ReadResult): ReadResult {
    if r.Value? then Value(text + r.text) else r
  }

  /** The parts from entry i on, up to the first without the marker. */
  ghost function ReadFrom(store: Entries, i: nat): ReadResult
    decreases From(store, i)
  {
    if i !in store then Missing
    else
      var chunk := store[i];
      if EndsWith(chunk, CONTINUE_MARKER) then
        assert i in From(store, i) && i !in From(store, i + 1);
        Prefixed(chunk[..|chunk| - |CONTINUE_MARKER|], ReadFrom(store, i + 1))
      else Value(chunk)
  }

  /** The parts stand in the entries from i on. */
  ghost predicate Holds(store: Entries, i: nat, parts: seq<string>)
    decreases |parts|
  {
    parts == [] || (i in store && store[i] == parts[0] && Holds(store, i + 1, parts[1..]))
  }

  lemma {:induction false} HoldsFrom(store: Entries, parts: seq<string>, i: nat)
    requires i <= |parts| && forall k :: 0 <= k < |parts| ==> k in store && store[k] == parts[k]
    ensures Holds(store, i, parts[i..])
    decreases |parts| - i
  {
    if i < |parts| {
      HoldsFrom(store, parts, i + 1);
      assert parts[i..][1..] == parts[i + 1..];
    }
  }

  /** The parts of a string, wherever they stand, read as the string, and go on exactly at a multiple of the step. */
  lemma {:induction false} ReadParts(store: Entries, i: nat, sealed: string, step: nat)
    requires step > 0 && sealed != "" && !EndsWith(sealed, CONTINUE_MARKER)
    requires Holds(store, i, Parts(sealed, step))
    ensures ReadFrom(store, i) ==
              if !Multiple(|sealed|, step) then Value(sealed)
              else Prefixed(sealed, ReadFrom(store, i + |Parts(sealed, step)|))
    decreases |sealed|
  {
    if |sealed| >= step {
      var head, rest := sealed[..step], sealed[step..];
      assert Parts(sealed, step)[1..] == Parts(rest, step);
      MarkedEndsWith(head);
      assert sealed == head + rest;
      if rest == "" {
        assert head == sealed;
      } else {
        SuffixOfRest(sealed, step);
        ReadParts(store, i + 1, rest, step);
        PrefixedTwice(head, rest, ReadFrom(store, i + |Parts(sealed, step)|));
      }
    }
  }

  lemma PrefixedTwice(a: string, b: string, r: ReadResult)
    ensures Prefixed(a, Prefixed(b, r)) == Prefixed(a + b, r)
  {
    if r.Value? {
      assert a + (b + r.text) == a + b + r.text;
    }
  }

  /** No entry is empty; `store` keeps this. */
  ghost predicate NoneEmpty(store: Entries) {
    forall k :: k in store ==> store[k] != ""
  }

  lemma {:induction false} ReadIsNotEmpty(store: Entries, i: nat)
    requires NoneEmpty(store)
    ensures ReadFrom(store, i) != Value("")
    decreases From(store, i)
  {
    if i in store && EndsWith(store[i], CONTINUE_MARKER) {
      assert i in From(store, i) && i !in From(store, i + 1);
      ReadIsNotEmpty(store, i + 1);
    }
  }

  lemma StoreKeepsNoneEmpty(store: Entries, sealed: string, step: nat, n: nat)
    requires step > 0 && NoneEmpty(store) && n <= |Parts(sealed, step)|
    ensures NoneEmpty(SetAll(store, Parts(sealed, step)[..n]))
  {
    var parts := Parts(sealed, step)[..n];
    var t := SetAll(store, parts);
    SetAllIs(store, parts);
    forall k | k in t ensures t[k] != "" {
      if k < n {
        PartsFit(sealed, step, k);
      }
    }
  }

  lemma StoredReads(store: Entries, sealed: string, step: nat)
    requires step > 0 && sealed != "" && !EndsWith(sealed, CONTINUE_MARKER)
    ensures var parts := Parts(sealed, step);
            var t := SetAll(store, parts);
            && (!Multiple(|sealed|, step) ==> ReadFrom(t, 0) == Value(sealed))
            && (Multiple(|sealed|, step) ==> ReadFrom(t, 0) == Prefixed(sealed, ReadFrom(t, |parts|)))
            && (|parts| !in store ==> ReadFrom(t, |parts|) == Missing)
  {
    StoredHolds(store, Parts(sealed, step));
    ReadParts(SetAll(store, Parts(sealed, step)), 0, sealed, step);
  }

  lemma StoredHolds(store: Entries, parts: seq<string>)
    ensures Holds(SetAll(store, parts), 0, parts)
    ensures |parts| !in store ==> |parts| !in SetAll(store, parts)
  {
    SetAllIs(store, parts);
    HoldsFrom(SetAll(store, parts), parts, 0);
    assert parts[0..] == parts;
  }

  lemma PrefixedDiffers(text: string, r: ReadResult)
    requires r != Value("")
    ensures Prefixed(text, r) != Value(text)
  {
    if r.Value? {
      assert |text + r.text| > |text|;
    }
  }

  /**
   Reading after storing gives the string back, whatever was stored before, exactly when its length is not a
   multiple of the step size. At a multiple the reader goes on into what an earlier, longer string left behind,
   and finds nothing on a keyring without it.
   */
  lemma RoundTripExactly(store: Entries, sealed: string, step: nat)
    requires step > 0 && NoneEmpty(store) && sealed != "" && !EndsWith(sealed, CONTINUE_MARKER)
    ensures var t := SetAll(store, Parts(sealed, step));
            && (ReadFrom(t, 0) == Value(sealed) <==> |sealed| % step != 0)
            && (|sealed| % step == 0 && |Parts(sealed, step)| !in store ==> ReadFrom(t, 0) == Missing)
  {
    var parts := Parts(sealed, step);
    var t := SetAll(store, parts);
    StoredReads(store, sealed, step);
    assert parts[..|parts|] == parts;
    StoreKeepsNoneEmpty(store, sealed, step, |parts|);
    ReadIsNotEmpty(t, |parts|);
    PrefixedDiffers(sealed, ReadFrom(t, |parts|));
    MultipleIsModulo(|sealed|, step);
  }

  /** The entries before k all say that more follows. */
  ghost predicate AllMarked(store: Entries, k: nat) {
    forall j :: 0 <= j < k ==> j in store && EndsWith(store[j], CONTINUE_MARKER)
  }

  /** An entry with the marker is read, and reading goes on at the next. */
  lemma ReadOn(store: Entries, i: nat, text: string)
    requires i in store && EndsWith(store[i], CONTINUE_MARKER)
    ensures var head := store[i][..|store[i]| - |CONTINUE_MARKER|];
            Prefixed(text, ReadFrom(store, i)) == Prefixed(text + head, ReadFrom(store, i + 1))
    ensures From(store, i + 1) < From(store, i)
  {
    assert i in From(store, i) && i !in From(store, i + 1);
    PrefixedTwice(text, store[i][..|store[i]| - |CONTINUE_MARKER|], ReadFrom(store, i + 1));
  }

  /** No entry that is read answers with an error. */
  lemma NoError(store: Entries, broken: set<nat>, i: nat)
    requires forall k :: 0 <= k <= i ==> k !in broken
    requires i in store ==> !EndsWith(store[i], CONTINUE_MARKER)
    ensures forall k :: k in broken ==> !AllMarked(store, k)
  {
  }

  /** The parts from k on are those of the text from i on. */
  ghost predicate PartsFrom(sealed: string, step: nat, i: nat, k: nat)
    requires step > 0
  {
    var parts := Parts(sealed, step);
    k <= |parts| && if i >= |sealed| then k == |parts| else parts[k..] == Parts(sealed[i..], step)
  }

  lemma PartsStart(sealed: string, step: nat)
    requires step > 0
    ensures PartsFrom(sealed, step, 0, 0)
  {
    assert sealed[0..] == sealed && Parts(sealed, step)[0..] == Parts(sealed, step);
  }

  lemma NextPart(sealed: string, step: nat, i: nat, k: nat)
    requires step > 0 && i < |sealed| && PartsFrom(sealed, step, i, k)
    ensures k < |Parts(sealed, step)|
    ensures Parts(sealed, step)[k] ==
              if i + step <= |sealed| then sealed[i..i + step] + CONTINUE_MARKER else sealed[i..]
    ensures PartsFrom(sealed, step, i + step, k + 1)
  {
    var parts, rest := Parts(sealed, step), sealed[i..];
    assert parts[k..] == Parts(rest, step) && rest != "";
    assert parts[k] == parts[k..][0] && parts[k..][1..] == parts[k + 1..];
    if i + step <= |sealed| {
      assert rest[..step] == sealed[i..i + step] && rest[step..] == sealed[i + step..];
      assert Parts(rest, step)[1..] == Parts(rest[step..], step);
    }
  }

  function Times(k: nat, step: nat): nat {
    if k == 0 then 0 else Times(k - 1, step) + step
  }

  lemma {:induction false} TimesIsProduct(k: nat, step: nat)
    ensures Times(k, step) == k * step
    decreases k
  {
    if k > 0 {
      TimesIsProduct(k - 1, step);
      assert k * step == (k - 1) * step + step;
    }
  }

  lemma {:induction false} PartBegins(sealed: string, step: nat, k: nat)
    requires step > 0 && k < |Parts(sealed, step)|
    ensures PartsFrom(sealed, step, Times(k, step), k)
    decreases k
  {
    if k == 0 {
      PartsStart(sealed, step);
    } else {
      var at := Times(k - 1, step);
      PartBegins(sealed, step, k - 1);
      WithinText(sealed, step, at, k - 1);
      NextPart(sealed, step, at, k - 1);
    }
  }

  lemma WithinText(sealed: string, step: nat, at: nat, k: nat)
    requires step > 0 && PartsFrom(sealed, step, at, k) && k < |Parts(sealed, step)|
    ensures at < |sealed|
  {
  }

  lemma PartTextAt(sealed: string, step: nat, k: nat, at: nat)
    requires step > 0 && k < |Parts(sealed, step)| && at == Times(k, step)
    ensures at < |sealed|
    ensures Parts(sealed, step)[k] == if at + step <= |sealed| then sealed[at..at + step] + "<MORE>" else sealed[at..]
    ensures k == |Parts(sealed, step)| - 1 <==> |sealed| <= at + step
  {
    PartBegins(sealed, step, k);
    WithinText(sealed, step, at, k);
    NextPart(sealed, step, at, k);
  }

  /** The k-th part is the k-th step of the string, with the marker at its end if the step is full. */
  lemma PartsText(sealed: string, step: nat, k: nat)
    requires step > 0 && k < |Parts(sealed, step)|
    ensures var at := k * step;
            && 0 <= at < |sealed|
            && Parts(sealed, step)[k] ==
                 (if at + step <= |sealed| then sealed[at..at + step] + "<MORE>" else sealed[at..])
            && (k == |Parts(sealed, step)| - 1 <==> |sealed| <= at + step)
  {
    TimesIsProduct(k, step);
    PartTextAt(sealed, step, k, Times(k, step));
  }

  lemma SetOne(store: Entries, parts: seq<string>, k: nat)
    requires k < |parts|
    ensures SetAll(store, parts[..k + 1]) == SetAll(store, parts[..k])[k := parts[k]]
  {
    assert parts[..k + 1][..k] == parts[..k];
  }

  // ---------- the storage object ----------

  class KeyringStorage {
    const limit: nat
    /** The handles opened so far; handle j names entry j. */
    var handles: seq<nat>
    /** The keyring itself, and the entries that answer with an error. */
    var store: Entries
    var broken: set<nat>

    ghost predicate Valid()
      reads this
    {
      limit > |CONTINUE_MARKER| && forall j :: 0 <= j < |handles| ==> handles[j] == j
    }

    constructor (limit: nat, store: Entries, broken: set<nat>)
      requires limit > |CONTINUE_MARKER|
      ensures Valid() && this.limit == limit && this.store == store && this.broken == broken && handles == []
    {
      this.limit, this.store, this.broken, handles := limit, store, broken, [];
    }

    /** The handle of entry i, opened if it is the next one. */
    method GetNextEntry(i: nat) returns (entry: nat)
      requires Valid() && i <= |handles|
      modifies this`handles
      ensures Valid() && entry == i && old(handles) <= handles && i < |handles|
    {
      if i < |handles| {
        return handles[i];
      }
      handles := handles + [i];
      return i;
    }

    /** Sets the parts one after the other; an entry that cannot be set ends the storing. */
    method Store(sealed: string) returns (ok: bool)
      requires Valid()
      modifies this`handles, this`store
      ensures Valid()
      ensures var parts := Parts(sealed, limit - |CONTINUE_MARKER|);
              && (ok <==> forall k :: 0 <= k < |parts| ==> k !in broken)
              && (ok ==> store == SetAll(old(store), parts))
              && (!ok ==> exists n :: 0 <= n < |parts| && n in broken && store == SetAll(old(store), parts[..n]))
    {
      var step := limit - |CONTINUE_MARKER|;
      ghost var parts := Parts(sealed, step);
      var i, k := 0, 0;
      PartsStart(sealed, step);
      while i < |sealed|
        invariant Valid() && k <= |handles| && PartsFrom(sealed, step, i, k)
        invariant forall j :: 0 <= j < k ==> j !in broken
        invariant store == SetAll(old(store), parts[..k])
        decreases |sealed| - i
      {
        var entry := GetNextEntry(k);
        var cutoff := i + step;
        var part := if cutoff <= |sealed| then sealed[i..cutoff] + CONTINUE_MARKER else sealed[i..];
        NextPart(sealed, step, i, k);
        if entry in broken {
          return false;
        }
        store := store[entry := part];
        SetOne(old(store), parts, k);
        i, k := i + step, k + 1;
      }
      assert parts[..|parts|] == parts;
      return true;
    }

    /** Reads entries until one comes without the marker. */
    method Read() returns (r: ReadResult)
      requires Valid()
      modifies this`handles
      ensures Valid()
      ensures r == Failed <==> exists k :: k in broken && AllMarked(store, k)
      ensures r != Failed ==> r == ReadFrom(store, 0)
    {
      var text := "";
      var i := 0;
      while true
        invariant Valid() && i <= |handles|
        invariant ReadFrom(store, 0) == Prefixed(text, ReadFrom(store, i))
        invariant AllMarked(store, i) && forall k :: 0 <= k < i ==> k !in broken
        decreases From(store, i)
      {
        var entry := GetNextEntry(i);
        if entry in broken {
          return Failed;
        }
        if entry !in store {
          NoError(store, broken, i);
          return Missing;
        }
        var chunk := store[entry];
        if !EndsWith(chunk, CONTINUE_MARKER) {
          NoError(store, broken, i);
          return Value(text + chunk);
        }
        ReadOn(store, i, text);
        text := text + chunk[..|chunk| - |CONTINUE_MARKER|];
        i := i + 1;
      }
    }
  }
}
