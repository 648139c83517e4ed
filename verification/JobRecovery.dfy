/**
 What a restart does with the job manifests it finds: which it loads, which it
 deletes, and which job keeps an idempotency key.
 */
module JobRecovery {
  import opened ManifestHeap
  import opened Outcomes
  import opened Sorting

  const MAX_LOADED_JOBS: nat := 1024
  const MAX_RETAINED_TERMINAL_JOBS: nat := 64

  /** A usable manifest: its place in the order, and whether its job is active. */
  datatype Manifest = Manifest(item: Item, active: bool)

  function ItemsOf(manifests: seq<Manifest>, active: bool): seq<Item> {
    if manifests == [] then []
    else
      var last := manifests[|manifests| - 1];
      ItemsOf(manifests[..|manifests| - 1], active) + if last.active == active then [last.item] else []
  }

  lemma ItemsStep(manifests: seq<Manifest>, i: nat, active: bool)
    requires i < |manifests|
    ensures ItemsOf(manifests[..i + 1], active)
         == ItemsOf(manifests[..i], active) + if manifests[i].active == active then [manifests[i].item] else []
  {
    assert manifests[..i + 1][..i] == manifests[..i];
  }

  /** Truncating an already bounded list of terminal manifests to the room the active ones leave. */
  lemma TerminalShare(active: seq<Item>, terminal: seq<Item>, room: nat, retained: nat)
    ensures |Best(active, room)| <= room
    ensures Truncated(Best(terminal, retained), room - |Best(active, room)|) ==
      SelectedTerminal(active, terminal, room, retained)
  {
  }

  /** What one manifest adds to what its heap has seen. */
  function Share(manifest: Manifest, active: bool): multiset<Item> {
    if manifest.active == active then multiset{manifest.item} else multiset{}
  }

  lemma SeenStep(manifests: seq<Manifest>, i: nat, active: bool)
    requires i < |manifests|
    ensures multiset(ItemsOf(manifests[..i + 1], active)) ==
      multiset(ItemsOf(manifests[..i], active)) + Share(manifests[i], active)
  {
    ItemsStep(manifests, i, active);
  }

  /**
   Sort active and terminal manifests, newest first; truncate; active ones come first and leave
   the rest of the room.
   */
  function Selection(active: seq<Item>, terminal: seq<Item>, room: nat, retained: nat): seq<Item> {
    Best(active, room) + SelectedTerminal(active, terminal, room, retained)
  }

  function SelectedTerminal(active: seq<Item>, terminal: seq<Item>, room: nat, retained: nat): seq<Item> {
    var left := if |Best(active, room)| <= room then room - |Best(active, room)| else 0;
    Best(terminal, if left <= retained then left else retained)
  }

  /** The newest active manifests come first, newest first, then the newest terminal ones in the room left. */
  ghost predicate IsSelection(manifests: seq<Manifest>, selected: seq<Item>, room: nat, retained: nat) {
    exists n :: 0 <= n <= |selected| && n <= room && SplitsAt(manifests, selected, n, room, retained)
  }

  ghost predicate SplitsAt(manifests: seq<Manifest>, selected: seq<Item>, n: nat, room: nat, retained: nat)
    requires n <= |selected| && n <= room
  {
    && AreNewest(selected[..n], Found(manifests, true), room)
    && AreNewest(selected[n..], Found(manifests, false), if room - n <= retained then room - n else retained)
  }

  /** What there is of either kind. */
  ghost function Found(manifests: seq<Manifest>, active: bool): multiset<Item> {
    multiset(ItemsOf(manifests, active))
  }

  lemma SelectionMeans(manifests: seq<Manifest>, room: nat, retained: nat)
    ensures IsSelection(manifests, Selection(ItemsOf(manifests, true), ItemsOf(manifests, false), room, retained),
                        room, retained)
  {
    var active, terminal := ItemsOf(manifests, true), ItemsOf(manifests, false);
    var selected, n := Selection(active, terminal, room, retained), |Best(active, room)|;
    BestAreNewest(active, room);
    BestAreNewest(terminal, if room - n <= retained then room - n else retained);
    assert selected[..n] == Best(active, room);
    assert selected[n..] == SelectedTerminal(active, terminal, room, retained);
    assert SplitsAt(manifests, selected, n, room, retained);
  }

  /** A terminal manifest that is not selected is no newer than any that is. */
  lemma NoneNewer(manifests: seq<Manifest>, room: nat, retained: nat, deleted: seq<Item>)
    requires multiset(SelectedTerminal(ItemsOf(manifests, true), ItemsOf(manifests, false), room, retained))
           + multiset(deleted) == Found(manifests, false)
    ensures var selected := Selection(ItemsOf(manifests, true), ItemsOf(manifests, false), room, retained);
      forall d, k :: d in deleted && k in selected && k !in ItemsOf(manifests, true) ==> !Newer(d, k)
  {
    var active, terminal := ItemsOf(manifests, true), ItemsOf(manifests, false);
    var kept := SelectedTerminal(active, terminal, room, retained);
    var left := if |Best(active, room)| <= room then room - |Best(active, room)| else 0;
    BestAreNewest(active, room);
    BestAreNewest(terminal, if left <= retained then left else retained);
    assert Found(manifests, false) - multiset(kept) == multiset(deleted);
    forall k | k in Best(active, room) ensures k in active {
      assert k in multiset(Best(active, room)) && k in multiset(active);
    }
    forall d, k | d in deleted && k in kept ensures !Newer(d, k) {
      assert d in multiset(deleted);
    }
  }

  // ----- Order does not matter -----

  /** Manifests met in any other order give the same selection. */
  lemma SelectionIgnoresOrder(active: seq<Item>, terminal: seq<Item>, active': seq<Item>, terminal': seq<Item>,
                              room: nat, retained: nat)
    requires multiset(active) == multiset(active') && multiset(terminal) == multiset(terminal')
    ensures Selection(active, terminal, room, retained) == Selection(active', terminal', room, retained)
  {
    BestIgnoresOrder(active, active');
    BestIgnoresOrder(terminal, terminal');
  }

  lemma BestIgnoresOrder(s: seq<Item>, t: seq<Item>)
    requires multiset(s) == multiset(t)
    ensures SortBy(s, NewestFirst()) == SortBy(t, NewestFirst())
  {
    NewestFirstOrders();
    SortBySorts(s, NewestFirst());
    SortBySorts(t, NewestFirst());
    SortedIsUnique(SortBy(s, NewestFirst()), SortBy(t, NewestFirst()));
  }

  // ----- Heaps keep the best -----

  lemma {:induction false} ItemsListed(items: multiset<Item>) returns (s: seq<Item>)
    ensures multiset(s) == items
    decreases |items|
  {
    if items == multiset{} {
      s := [];
    } else {
      var x :| x in items;
      s := ItemsListed(items - multiset{x});
      s := s + [x];
    }
  }

  lemma KeptIsBest(kept: seq<Item>, seen: seq<Item>, limit: nat)
    requires KeepsBest(multiset(kept), multiset(seen), limit)
    ensures SortBy(kept, NewestFirst()) == Best(seen, limit)
  {
    var rest := ItemsListed(multiset(seen) - multiset(kept));
    KeptIsSortedPrefix(kept, seen, rest, limit);
  }

  function Truncated(s: seq<Item>, limit: nat): seq<Item> {
    if |s| <= limit then s else s[..limit]
  }

  /** Moving items from one share to another keeps the sum. */
  lemma Moved(after: multiset<Item>, gone: seq<Item>, before: multiset<Item>, added: multiset<Item>,
              evicted: seq<Item>, seen: multiset<Item>)
    requires after + multiset(gone) == before + added && before + multiset(evicted) == seen
    ensures after + multiset(evicted + gone) == seen + added
  {
    assert multiset(evicted + gone) == multiset(evicted) + multiset(gone);
    assert after + multiset(evicted + gone) == (after + multiset(gone)) + multiset(evicted);
  }

  /** One manifest goes into its heap; what the terminal heap gives up is returned. */
  method Offer(manifest: Manifest, active: ManifestHeap, terminal: ManifestHeap, room: nat, retained: nat,
               ghost seenActive: multiset<Item>, ghost seenTerminal: multiset<Item>)
    returns (evicted: seq<Item>)
    requires active != terminal && active.Valid() && terminal.Valid()
    requires KeepsBest(multiset(active.items), seenActive, room)
    requires KeepsBest(multiset(terminal.items), seenTerminal, retained)
    modifies active, terminal
    ensures active.Valid() && terminal.Valid()
    ensures KeepsBest(multiset(active.items), seenActive + Share(manifest, true), room)
    ensures KeepsBest(multiset(terminal.items), seenTerminal + Share(manifest, false), retained)
    ensures multiset(terminal.items) + multiset(evicted) == multiset(old(terminal.items)) + Share(manifest, false)
  {
    evicted := [];
    assert seenActive + multiset{} == seenActive && seenTerminal + multiset{} == seenTerminal;
    if manifest.active {
      var _ := active.Retain(manifest.item, room, seenActive);
    } else {
      var gone := terminal.Retain(manifest.item, retained, seenTerminal);
      evicted := if gone.Some? then [gone.value] else [];
    }
  }

  /** Sorts every manifest into its heap; what a heap gives up is returned for deletion when it is terminal. */
  method Gather(manifests: seq<Manifest>, room: nat, retained: nat)
    returns (active: ManifestHeap, terminal: ManifestHeap, evicted: seq<Item>)
    ensures fresh(active) && fresh(terminal)
    ensures KeepsBest(multiset(active.items), multiset(ItemsOf(manifests, true)), room)
    ensures KeepsBest(multiset(terminal.items), multiset(ItemsOf(manifests, false)), retained)
    ensures multiset(terminal.items) + multiset(evicted) == multiset(ItemsOf(manifests, false))
  {
    active := new ManifestHeap();
    terminal := new ManifestHeap();
    evicted := [];
    ghost var seenActive: multiset<Item>, seenTerminal: multiset<Item> := multiset{}, multiset{};
    var i := 0;
    while i < |manifests|
      invariant 0 <= i <= |manifests|
      invariant fresh(active) && fresh(terminal) && active != terminal && active.Valid() && terminal.Valid()
      invariant seenActive == multiset(ItemsOf(manifests[..i], true))
      invariant seenTerminal == multiset(ItemsOf(manifests[..i], false))
      invariant KeepsBest(multiset(active.items), seenActive, room)
      invariant KeepsBest(multiset(terminal.items), seenTerminal, retained)
      invariant multiset(terminal.items) + multiset(evicted) == seenTerminal
    {
      SeenStep(manifests, i, true);
      SeenStep(manifests, i, false);
      ghost var before := multiset(terminal.items);
      var gone := Offer(manifests[i], active, terminal, room, retained, seenActive, seenTerminal);
      Moved(multiset(terminal.items), gone, before, Share(manifests[i], false), evicted, seenTerminal);
      seenActive := seenActive + Share(manifests[i], true);
      seenTerminal := seenTerminal + Share(manifests[i], false);
      evicted := evicted + gone;
      i := i + 1;
    }
    assert manifests[..i] == manifests;
  }

  /** The generic read: bounded, active manifests first, and nothing is deleted. */
  method LoadAll(manifests: seq<Manifest>) returns (selected: seq<Item>)
    ensures selected == Selection(ItemsOf(manifests, true), ItemsOf(manifests, false), MAX_LOADED_JOBS, MAX_LOADED_JOBS)
    ensures IsSelection(manifests, selected, MAX_LOADED_JOBS, MAX_LOADED_JOBS)
  {
    var active, terminal, _ := Gather(manifests, MAX_LOADED_JOBS, MAX_LOADED_JOBS);
    KeptIsBest(active.items, ItemsOf(manifests, true), MAX_LOADED_JOBS);
    KeptIsBest(terminal.items, ItemsOf(manifests, false), MAX_LOADED_JOBS);
    TerminalShare(ItemsOf(manifests, true), ItemsOf(manifests, false), MAX_LOADED_JOBS, MAX_LOADED_JOBS);
    var first := Truncated(SortBy(active.items, NewestFirst()), MAX_LOADED_JOBS);
    var rest, _ := Split(SortBy(terminal.items, NewestFirst()), MAX_LOADED_JOBS - |first|);
    selected := first + rest;
    SelectionMeans(manifests, MAX_LOADED_JOBS, MAX_LOADED_JOBS);
  }

  lemma SortKeepsItems(items: seq<Item>)
    ensures multiset(SortBy(items, NewestFirst())) == multiset(items)
  {
    NewestFirstOrders();
    SortBySorts(items, NewestFirst());
  }

  method Split(sorted: seq<Item>, room: nat) returns (kept: seq<Item>, dropped: seq<Item>)
    ensures kept == Truncated(sorted, room)
    ensures multiset(kept) + multiset(dropped) == multiset(sorted)
  {
    kept := Truncated(sorted, room);
    dropped := sorted[|kept|..];
    assert sorted == kept + dropped;
  }

  /** A restart's choice: every terminal manifest is either selected or deleted, and no active one is deleted. */
  method SelectRestored(manifests: seq<Manifest>) returns (selected: seq<Item>, deleted: seq<Item>)
    ensures selected ==
      Selection(ItemsOf(manifests, true), ItemsOf(manifests, false), MAX_LOADED_JOBS, MAX_RETAINED_TERMINAL_JOBS)
    ensures var kept := SelectedTerminal(ItemsOf(manifests, true), ItemsOf(manifests, false),
                                         MAX_LOADED_JOBS, MAX_RETAINED_TERMINAL_JOBS);
      multiset(kept) + multiset(deleted) == multiset(ItemsOf(manifests, false))
    ensures IsSelection(manifests, selected, MAX_LOADED_JOBS, MAX_RETAINED_TERMINAL_JOBS)
    ensures forall d, k :: d in deleted && k in selected && k !in ItemsOf(manifests, true) ==> !Newer(d, k)
  {
    ghost var allActive, allTerminal := ItemsOf(manifests, true), ItemsOf(manifests, false);
    var active, terminal, evicted := Gather(manifests, MAX_LOADED_JOBS, MAX_RETAINED_TERMINAL_JOBS);
    KeptIsBest(active.items, allActive, MAX_LOADED_JOBS);
    KeptIsBest(terminal.items, allTerminal, MAX_RETAINED_TERMINAL_JOBS);
    TerminalShare(allActive, allTerminal, MAX_LOADED_JOBS, MAX_RETAINED_TERMINAL_JOBS);
    var first := Truncated(SortBy(active.items, NewestFirst()), MAX_LOADED_JOBS);
    var kept, dropped := Split(SortBy(terminal.items, NewestFirst()), MAX_LOADED_JOBS - |first|);
    SortKeepsItems(terminal.items);
    Moved(multiset(kept), dropped, multiset(terminal.items), multiset{}, evicted, multiset(allTerminal));
    selected, deleted := first + kept, evicted + dropped;
    SelectionMeans(manifests, MAX_LOADED_JOBS, MAX_RETAINED_TERMINAL_JOBS);
    NoneNewer(manifests, MAX_LOADED_JOBS, MAX_RETAINED_TERMINAL_JOBS, deleted);
  }

  // ----- Registration -----

  predicate SharesKey(a: string, b: string, keys: map<string, string>) {
    a in keys && b in keys && keys[a] == keys[b]
  }

  /** Whether an earlier selected job holds the same client key. */
  predicate KeyTaken(selected: seq<Item>, keys: map<string, string>, i: nat)
    requires i < |selected|
  {
    exists j :: 0 <= j < i && SharesKey(selected[j].jobId, selected[i].jobId, keys)
  }

  /** The first `n` selected jobs whose key is, or is not, already taken. */
  function WithKey(selected: seq<Item>, keys: map<string, string>, n: nat, taken: bool): seq<string>
    requires n <= |selected|
  {
    if n == 0 then []
    else
      WithKey(selected, keys, n - 1, taken) +
      if KeyTaken(selected, keys, n - 1) == taken then [selected[n - 1].jobId] else []
  }

  /** The index has exactly the keys of the first `n` jobs, each with its first holder. */
  ghost predicate IndexesFirst(selected: seq<Item>, keys: map<string, string>, n: nat, index: map<string, string>)
    requires n <= |selected|
  {
    && (forall k :: 0 <= k < n && selected[k].jobId in keys ==> keys[selected[k].jobId] in index)
    && (forall k :: 0 <= k < n && selected[k].jobId in keys && !KeyTaken(selected, keys, k) ==>
          index[keys[selected[k].jobId]] == selected[k].jobId)
    && (forall key :: key in index ==> exists k :: 0 <= k < n && HoldsKey(selected[k].jobId, key, keys))
  }

  predicate HoldsKey(id: string, key: string, keys: map<string, string>) {
    id in keys && keys[id] == key
  }

  lemma TakenWhenIndexed(selected: seq<Item>, keys: map<string, string>, n: nat, index: map<string, string>)
    requires n < |selected| && IndexesFirst(selected, keys, n, index)
    ensures KeyTaken(selected, keys, n) <==> selected[n].jobId in keys && keys[selected[n].jobId] in index
  {
  }

  lemma IndexStep(selected: seq<Item>, keys: map<string, string>, n: nat, index: map<string, string>)
    requires n < |selected| && IndexesFirst(selected, keys, n, index)
    ensures IndexesFirst(selected, keys, n + 1,
      if selected[n].jobId in keys && !KeyTaken(selected, keys, n)
      then index[keys[selected[n].jobId] := selected[n].jobId] else index)
  {
    TakenWhenIndexed(selected, keys, n, index);
    var id := selected[n].jobId;
    var after := if id in keys && !KeyTaken(selected, keys, n) then index[keys[id] := id] else index;
    forall key | key in after ensures exists k :: 0 <= k < n + 1 && HoldsKey(selected[k].jobId, key, keys) {
      if key in index {
        var k :| 0 <= k < n && HoldsKey(selected[k].jobId, key, keys);
        assert k < n + 1;
      } else {
        assert HoldsKey(selected[n].jobId, key, keys);
      }
    }
  }

  /** Registers the selected jobs in order; of several with one key only the first survives, and the key leads to it. */
  method Register(selected: seq<Item>, keys: map<string, string>)
    returns (jobs: seq<string>, idempotency: map<string, string>, deleted: seq<string>)
    ensures jobs == WithKey(selected, keys, |selected|, false)
    ensures deleted == WithKey(selected, keys, |selected|, true)
    ensures IndexesFirst(selected, keys, |selected|, idempotency)
  {
    jobs, idempotency, deleted := [], map[], [];
    var i := 0;
    while i < |selected|
      invariant 0 <= i <= |selected|
      invariant jobs == WithKey(selected, keys, i, false)
      invariant deleted == WithKey(selected, keys, i, true)
      invariant IndexesFirst(selected, keys, i, idempotency)
    {
      var id := selected[i].jobId;
      TakenWhenIndexed(selected, keys, i, idempotency);
      IndexStep(selected, keys, i, idempotency);
      if id in keys && keys[id] in idempotency {
        deleted := deleted + [id];
      } else {
        jobs := jobs + [id];
        if id in keys {
          idempotency := idempotency[keys[id] := id];
        }
      }
      i := i + 1;
    }
  }
}
