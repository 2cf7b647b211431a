/**
 * The accordion open-state rules of the tickets store, as functions of the shown list
 * (`filtered`), the mode and the remembered open ids (`openIds`, a JavaScript `Set` in
 * insertion order). The store class applies them to its fields.
 */
module OpenState {
  import opened Seqs
  import opened JsSet
  import opened Tickets

  /** `AccordionMode`: one panel open at a time, or any number. */
  datatype Mode = Single | Multiple

  /** The argument of `setOpenIndices`: `undefined`, one index, or an array of indices. */
  datatype IndexArg = NoIndices | OneIndex(index: int) | IndexList(indices: seq<int>)

  /** Some remembered open id belongs to a shown ticket. */
  predicate AnyShown(openIds: seq<string>, filtered: seq<Ticket>)
  {
    exists id :: id in openIds && id in Ids(filtered)
  }

  /**
   * What the store keeps true between actions: in single mode the remembered ids are empty
   * when nothing is shown, and otherwise some remembered id is shown.
   */
  predicate Settled(filtered: seq<Ticket>, mode: Mode, openIds: seq<string>)
  {
    mode == Single ==> if filtered == [] then openIds == [] else AnyShown(openIds, filtered)
  }

  // ---------------------------------------------------------------------------------------
  // The getter visibleOpenIds

  /** Position, in insertion order, of the first open id that is shown; |openIds| if none. */
  function FirstShownIndex(openIds: seq<string>, filtered: seq<Ticket>): (k: nat)
    ensures k <= |openIds|
    ensures forall j :: 0 <= j < k ==> openIds[j] !in Ids(filtered)
    ensures k < |openIds| ==> openIds[k] in Ids(filtered)
    ensures k == |openIds| <==> !AnyShown(openIds, filtered)
    decreases |openIds|
  {
    if openIds == [] then 0
    else if openIds[0] in Ids(filtered) then 0
    else
      var k := 1 + FirstShownIndex(openIds[1..], filtered);
      assert forall j :: 1 <= j < |openIds| ==> openIds[j] == openIds[1..][j - 1];
      k
  }

  /** `filtered.filter(t => openIds.has(t.id)).map(t => t.id)`: the shown ids that are open,
      in display order, each as often as it is shown. */
  function OpenShown(filtered: seq<Ticket>, openIds: seq<string>): (r: seq<string>)
    ensures IsSubsequence(r, Ids(filtered))
    ensures forall id :: id in r <==> id in openIds && id in Ids(filtered)
    ensures forall id :: multiset(r)[id] == if id in openIds then multiset(Ids(filtered))[id] else 0
    decreases |filtered|
  {
    if filtered == [] then []
    else
      var rest := OpenShown(filtered[1..], openIds);
      var ids := Ids(filtered);
      assert ids == [filtered[0].id] + Ids(filtered[1..]);
      assert multiset(ids) == multiset{filtered[0].id} + multiset(Ids(filtered[1..]));
      assert ids[0] == filtered[0].id && ids[1..] == Ids(filtered[1..]);
      assert forall id :: id in ids <==> id == filtered[0].id || id in Ids(filtered[1..]);
      if filtered[0].id in openIds then
        assert ([filtered[0].id] + rest)[1..] == rest;
        [filtered[0].id] + rest
      else rest
  }

  /**
   * `visibleOpenIds`: the ids reported open. It holds only shown ids. In multiple mode it is
   * exactly the open ids that are shown, in display order, each as often as it is shown. In single mode it is empty exactly
   * when nothing is shown, and otherwise one id: the first open id in insertion order that is
   * shown, or, when no open id is shown, the first shown ticket.
   */
  function VisibleOpen(filtered: seq<Ticket>, mode: Mode, openIds: seq<string>): (r: seq<string>)
    ensures forall id :: id in r ==> id in Ids(filtered)
    ensures mode == Multiple ==>
              IsSubsequence(r, Ids(filtered)) &&
              forall id :: id in r <==> id in openIds && id in Ids(filtered)
    ensures mode == Multiple ==>
              forall id :: multiset(r)[id] == if id in openIds then multiset(Ids(filtered))[id] else 0
    ensures mode == Single ==> |r| <= 1 && (r == [] <==> filtered == [])
    ensures mode == Single && AnyShown(openIds, filtered) ==>
              exists j :: 0 <= j < |openIds| && r == [openIds[j]] &&
                          forall i :: 0 <= i < j ==> openIds[i] !in Ids(filtered)
    ensures mode == Single && filtered != [] && !AnyShown(openIds, filtered) ==>
              r == [filtered[0].id]
  {
    if mode == Multiple then
      var r := OpenShown(filtered, openIds);
      SubsequenceBounds(r, Ids(filtered));
      r
    else if filtered == [] then []
    else
      var k := FirstShownIndex(openIds, filtered);
      assert Ids(filtered)[0] == filtered[0].id;
      if k < |openIds| then [openIds[k]] else [filtered[0].id]
  }

  /**
   * The `for...of` scan behind `visibleOpenIds`, with its early return; it computes
   * VisibleOpen.
   */
  method ScanVisibleOpenIds(filtered: seq<Ticket>, mode: Mode, openIds: seq<string>)
    returns (r: seq<string>)
    ensures r == VisibleOpen(filtered, mode, openIds)
  {
    if mode == Multiple {
      return OpenShown(filtered, openIds);
    }
    if |filtered| == 0 {
      return [];
    }
    var i := 0;
    while i < |openIds|
      invariant 0 <= i <= |openIds|
      invariant forall j :: 0 <= j < i ==> openIds[j] !in Ids(filtered)
    {
      if openIds[i] in Ids(filtered) {
        return [openIds[i]];
      }
      i := i + 1;
    }
    return [filtered[0].id];
  }

  /**
   * In a settled single-mode state with tickets shown, exactly one panel is reported open, and
   * it is one the store remembers.
   */
  lemma SingleModeOneOpen(filtered: seq<Ticket>, openIds: seq<string>)
    ensures Settled(filtered, Single, openIds) && filtered != [] ==>
              |VisibleOpen(filtered, Single, openIds)| == 1 &&
              VisibleOpen(filtered, Single, openIds)[0] in openIds
  {
    if Settled(filtered, Single, openIds) && filtered != [] {
      var j :| 0 <= j < |openIds| && VisibleOpen(filtered, Single, openIds) == [openIds[j]] &&
               forall i :: 0 <= i < j ==> openIds[i] !in Ids(filtered);
    }
  }

  // ---------------------------------------------------------------------------------------
  // The getter openPanelIndices

  /** `filtered.findIndex(t => t.id === id)`: the first position carrying `id`, or -1. */
  function FindIndex(filtered: seq<Ticket>, id: string): (k: int)
    ensures -1 <= k < |filtered|
    ensures k == -1 <==> id !in Ids(filtered)
    ensures 0 <= k ==> filtered[k].id == id && forall j :: 0 <= j < k ==> filtered[j].id != id
    decreases |filtered|
  {
    if filtered == [] then -1
    else if filtered[0].id == id then 0
    else
      var k := FindIndex(filtered[1..], id);
      assert Ids(filtered) == [filtered[0].id] + Ids(filtered[1..]);
      if k == -1 then -1 else k + 1
  }

  /** `ids.map(id => filtered.findIndex(t => t.id === id))`. */
  function FindIndices(filtered: seq<Ticket>, ids: seq<string>): (r: seq<int>)
    ensures |r| == |ids|
    ensures forall i :: 0 <= i < |ids| ==> r[i] == FindIndex(filtered, ids[i])
  {
    seq(|ids|, i requires 0 <= i < |ids| => FindIndex(filtered, ids[i]))
  }

  /** `ids.map(id => findIndex(...)).filter(index => index >= 0)`. When every id is shown,
      nothing is dropped: the result is the `findIndex` of each id, in order. */
  function PanelIndices(filtered: seq<Ticket>, ids: seq<string>): (r: seq<int>)
    ensures |r| <= |ids|
    ensures forall i :: 0 <= i < |r| ==> 0 <= r[i] < |filtered|
    ensures (forall j :: 0 <= j < |ids| ==> ids[j] in Ids(filtered)) ==>
              |r| == |ids| && forall i :: 0 <= i < |r| ==> filtered[r[i]].id == ids[i]
    ensures (forall j :: 0 <= j < |ids| ==> ids[j] in Ids(filtered)) ==> r == FindIndices(filtered, ids)
    decreases |ids|
  {
    if ids == [] then []
    else
      var k := FindIndex(filtered, ids[0]);
      var tail := ids[1..];
      var rest := PanelIndices(filtered, tail);
      var found := FindIndices(filtered, ids);
      assert found[1..] == FindIndices(filtered, tail) by {
      }
      var r := if k >= 0 then [k] + rest else rest;
      PanelIndicesStep(filtered, Ids(filtered), ids, tail, k, rest, found, r);
      r
  }

  /** One step of PanelIndices, over any list `shown` of the shown ids: the position of the
      first id, when it is found, goes in front of those of the rest. */
  lemma PanelIndicesStep(filtered: seq<Ticket>, shown: seq<string>, ids: seq<string>, tail: seq<string>,
                         k: int, rest: seq<int>, found: seq<int>, r: seq<int>)
    requires ids != [] && tail == ids[1..]
    requires -1 <= k < |filtered| && (k == -1 <==> ids[0] !in shown)
    requires k >= 0 ==> filtered[k].id == ids[0]
    requires |found| == |ids| && found[0] == k
    requires |rest| <= |tail| && forall i :: 0 <= i < |rest| ==> 0 <= rest[i] < |filtered|
    requires (forall j :: 0 <= j < |tail| ==> tail[j] in shown) ==>
               |rest| == |tail| && (forall i :: 0 <= i < |rest| ==> filtered[rest[i]].id == tail[i]) &&
               rest == found[1..]
    requires r == if k >= 0 then [k] + rest else rest
    ensures |r| <= |ids|
    ensures forall i :: 0 <= i < |r| ==> 0 <= r[i] < |filtered|
    ensures (forall j :: 0 <= j < |ids| ==> ids[j] in shown) ==>
              |r| == |ids| && (forall i :: 0 <= i < |r| ==> filtered[r[i]].id == ids[i]) && r == found
  {
    if k >= 0 {
      assert forall i :: 0 < i < |r| ==> r[i] == rest[i - 1];
    }
    if forall j :: 0 <= j < |ids| ==> ids[j] in shown {
      assert ids[0] in shown;
      assert forall j :: 0 <= j < |tail| ==> tail[j] in shown by {
        forall j | 0 <= j < |tail| ensures tail[j] in shown { assert tail[j] == ids[j + 1]; }
      }
      forall i | 0 <= i < |r| ensures filtered[r[i]].id == ids[i] {
        if i > 0 { assert r[i] == rest[i - 1] && tail[i - 1] == ids[i]; }
      }
      SplitAt(found, 0);
      assert found[0..] == found;
    }
  }

  /** PanelIndices holds only positions of tickets whose id is among `ids`. */
  lemma {:induction false} PanelIndicesSound(filtered: seq<Ticket>, ids: seq<string>)
    ensures forall i :: 0 <= i < |PanelIndices(filtered, ids)| ==>
              filtered[PanelIndices(filtered, ids)[i]].id in ids
    decreases |ids|
  {
    if ids != [] {
      PanelIndicesSound(filtered, ids[1..]);
      var k := FindIndex(filtered, ids[0]);
      var rest := PanelIndices(filtered, ids[1..]);
      var front: seq<int> := if k >= 0 then [k] else [];
      assert PanelIndices(filtered, ids) == front + rest;
      PositionsShowIds(filtered, ids, front, rest);
    }
  }

  /** Positions showing `ids[0]` followed by positions showing ids of the rest all show ids of
      `ids`. */
  lemma PositionsShowIds(filtered: seq<Ticket>, ids: seq<string>, front: seq<int>, rest: seq<int>)
    requires ids != []
    requires forall i :: 0 <= i < |front| ==> 0 <= front[i] < |filtered| && filtered[front[i]].id == ids[0]
    requires forall i :: 0 <= i < |rest| ==> 0 <= rest[i] < |filtered| && filtered[rest[i]].id in ids[1..]
    ensures forall i :: 0 <= i < |front + rest| ==> filtered[(front + rest)[i]].id in ids
  {
    var r := front + rest;
    forall i | 0 <= i < |r| ensures filtered[r[i]].id in ids {
      if i < |front| {
        assert r[i] == front[i];
      } else {
        assert r[i] == rest[i - |front|];
        assert filtered[rest[i - |front|]].id in ids[1..];
      }
    }
  }

  /** PanelIndices holds the first position of every shown id among `ids`. */
  lemma {:induction false} PanelIndicesComplete(filtered: seq<Ticket>, ids: seq<string>)
    ensures forall id :: id in ids && id in Ids(filtered) ==>
              FindIndex(filtered, id) in PanelIndices(filtered, ids)
    decreases |ids|
  {
    if ids != [] {
      PanelIndicesComplete(filtered, ids[1..]);
      var rest := PanelIndices(filtered, ids[1..]);
      var r := PanelIndices(filtered, ids);
      forall id | id in ids && id in Ids(filtered) ensures FindIndex(filtered, id) in r {
        if id != ids[0] {
          assert id in ids[1..];
          assert FindIndex(filtered, id) in rest;
        }
      }
    }
  }

  /**
   * `openPanelIndices`: positions in `filtered` of the reported open ids. Since every reported
   * id is shown, nothing is dropped: one valid position per reported id, in the same order,
   * the first position that shows it.
   */
  function OpenPanelIndices(filtered: seq<Ticket>, mode: Mode, openIds: seq<string>): (r: seq<int>)
    ensures |r| == |VisibleOpen(filtered, mode, openIds)|
    ensures forall i :: 0 <= i < |r| ==>
              0 <= r[i] < |filtered| && filtered[r[i]].id == VisibleOpen(filtered, mode, openIds)[i]
    ensures forall i :: 0 <= i < |r| ==> r[i] == FindIndex(filtered, VisibleOpen(filtered, mode, openIds)[i])
  {
    var shown := VisibleOpen(filtered, mode, openIds);
    assert forall j :: 0 <= j < |shown| ==> shown[j] in Ids(filtered) by {
      forall j | 0 <= j < |shown| ensures shown[j] in Ids(filtered) {
        assert shown[j] in shown;
      }
    }
    PanelIndices(filtered, shown)
  }

  // ---------------------------------------------------------------------------------------
  // The actions, as functions of the state they change

  /**
   * `ensureOpenWhenListChanges`. Multiple mode leaves `openIds` alone. In single mode an empty
   * list clears it, a remembered id that is still shown keeps it as it is (sticky), and
   * otherwise the first shown ticket becomes the only open one. It never changes what
   * visibleOpenIds reports, and afterwards the state is settled: in single mode the reported
   * panel is a remembered one.
   */
  function ReconcileIds(filtered: seq<Ticket>, mode: Mode, openIds: seq<string>): (r: seq<string>)
    ensures mode == Multiple ==> r == openIds
    ensures mode == Single && filtered == [] ==> r == []
    ensures mode == Single && AnyShown(openIds, filtered) ==> r == openIds
    ensures mode == Single && filtered != [] && !AnyShown(openIds, filtered) ==> r == [filtered[0].id]
    ensures VisibleOpen(filtered, mode, r) == VisibleOpen(filtered, mode, openIds)
    ensures Settled(filtered, mode, r)
    ensures NoDuplicates(openIds) ==> NoDuplicates(r)
  {
    if mode == Multiple then openIds
    else if filtered == [] then []
    else if AnyShown(openIds, filtered) then openIds
    else
      var r := Add([], filtered[0].id);
      assert Ids(filtered)[0] == filtered[0].id;
      assert r[0] in r;
      r
  }

  /**
   * `toggleOpen(id)`. An id that is not shown changes nothing. In single mode a shown id
   * becomes the only open one; in multiple mode only its own membership flips.
   */
  function ToggleIds(filtered: seq<Ticket>, mode: Mode, openIds: seq<string>, id: string): (r: seq<string>)
    ensures id !in Ids(filtered) ==> r == openIds
    ensures id in Ids(filtered) && mode == Single ==> r == [id]
    ensures id in Ids(filtered) && mode == Multiple ==>
              (id in r <==> id !in openIds) && forall x :: x != id ==> (x in r <==> x in openIds)
    ensures id in Ids(filtered) && mode == Multiple && id !in openIds ==> r == openIds + [id]
    ensures id in Ids(filtered) && mode == Multiple && id in openIds ==> IsSubsequence(r, openIds)
    ensures NoDuplicates(openIds) ==> NoDuplicates(r)
  {
    if id !in Ids(filtered) then openIds
    else if mode == Single then Add([], id)
    else if id in openIds then Delete(openIds, id)
    else Add(openIds, id)
  }

  /**
   * The remembered ids with the shown ones deleted (`closeAllVisible` in multiple mode): hidden
   * ids stay, in their order, and multiple mode then reports nothing open.
   */
  function CloseShownIds(filtered: seq<Ticket>, openIds: seq<string>): (r: seq<string>)
    ensures IsSubsequence(r, openIds)
    ensures forall x :: x in r <==> x in openIds && x !in Ids(filtered)
    ensures NoDuplicates(openIds) ==> NoDuplicates(r)
    ensures VisibleOpen(filtered, Multiple, r) == []
    decreases |openIds|
  {
    if openIds == [] then
      NothingShownReportsNothing(filtered, []);
      []
    else
      var rest := CloseShownIds(filtered, openIds[1..]);
      NoDuplicatesCons(openIds[0], openIds[1..]);
      NoDuplicatesCons(openIds[0], rest);
      assert forall x :: x in openIds <==> x == openIds[0] || x in openIds[1..];
      var r := if openIds[0] in Ids(filtered) then rest else [openIds[0]] + rest;
      assert r != rest ==> r[1..] == rest;
      NothingShownReportsNothing(filtered, r);
      r
  }

  /** Some remembered id is shown exactly when multiple mode reports some panel open. */
  lemma AnyShownReportsOpen(filtered: seq<Ticket>, openIds: seq<string>)
    ensures AnyShown(openIds, filtered) <==> VisibleOpen(filtered, Multiple, openIds) != []
  {
    var r := VisibleOpen(filtered, Multiple, openIds);
    if r != [] {
      assert r[0] in r;
    }
  }

  /** Multiple mode reports nothing open when no remembered id is shown. */
  lemma NothingShownReportsNothing(filtered: seq<Ticket>, openIds: seq<string>)
    requires forall x :: x in openIds ==> x !in Ids(filtered)
    ensures VisibleOpen(filtered, Multiple, openIds) == []
  {
  }

  /**
   * The ids at the in-range positions of `indices` in `filtered`, each once, in the order the
   * positions first name them (`forEach` adding to a fresh Set): the same members as
   * IdsInRange, without repeats, in the order of their first occurrences there.
   */
  function IdsAtIndices(filtered: seq<Ticket>, indices: seq<int>): (r: seq<string>)
    ensures NoDuplicates(r)
    ensures forall id :: id in r <==>
              exists k :: k in indices && 0 <= k < |filtered| && filtered[k].id == id
    ensures forall id :: id in r ==> id in Ids(filtered)
    ensures forall id :: id in r <==> id in IdsInRange(filtered, indices)
    ensures IsSubsequence(r, IdsInRange(filtered, indices))
    ensures InFirstOccurrenceOrder(r, IdsInRange(filtered, indices))
    decreases |indices|
  {
    if indices == [] then []
    else
      var front := indices[..|indices| - 1];
      var k := indices[|indices| - 1];
      var prev := IdsAtIndices(filtered, front);
      var named := IdsInRange(filtered, front);
      assert indices == front + [k];
      assert forall j :: j in indices <==> j in front || j == k;
      if 0 <= k < |filtered| then
        var x := filtered[k].id;
        assert Ids(filtered)[k] == x;
        AddFollowsFirstOccurrences(prev, named, x);
        Add(prev, x)
      else prev
  }

  /** The ids at the in-range positions of `indices`, repeats included. */
  function IdsInRange(filtered: seq<Ticket>, indices: seq<int>): seq<string>
    decreases |indices|
  {
    if indices == [] then []
    else
      var front := indices[..|indices| - 1];
      var k := indices[|indices| - 1];
      if 0 <= k < |filtered| then IdsInRange(filtered, front) + [filtered[k].id]
      else IdsInRange(filtered, front)
  }

  /** `Array.isArray(indices) ? indices : [indices]`: an array is used as it is, a single
      index becomes a one-element array, and `undefined` names no index. */
  function IndexArray(arg: IndexArg): seq<int>
  {
    match arg
    case NoIndices => []
    case OneIndex(i) => [i]
    case IndexList(s) => s
  }

  /**
   * `setOpenIndices(arg)`. With `undefined`, multiple mode closes everything and single mode
   * reconciles. With indices, the open ids become IdsAtIndices, and single mode reconciles
   * when that is empty. Either way the state is left settled, so single mode keeps a panel
   * open whenever the list is not empty.
   */
  function SetIndicesIds(filtered: seq<Ticket>, mode: Mode, openIds: seq<string>, arg: IndexArg): (r: seq<string>)
    ensures arg == NoIndices && mode == Multiple ==> r == []
    ensures arg == NoIndices && mode == Single ==> r == ReconcileIds(filtered, mode, openIds)
    ensures arg != NoIndices && (mode == Multiple || IdsAtIndices(filtered, IndexArray(arg)) != []) ==>
              r == IdsAtIndices(filtered, IndexArray(arg))
    ensures arg != NoIndices && mode == Single && IdsAtIndices(filtered, IndexArray(arg)) == [] ==>
              r == (if filtered == [] then [] else [filtered[0].id])
    ensures Settled(filtered, mode, r)
    ensures NoDuplicates(openIds) ==> NoDuplicates(r)
    ensures mode == Single && filtered != [] ==> r != []
  {
    if arg == NoIndices then
      if mode == Single then ReconcileIds(filtered, mode, openIds) else []
    else
      var next := IdsAtIndices(filtered, IndexArray(arg));
      if mode == Single && next == [] then ReconcileIds(filtered, mode, next)
      else
        assert next != [] ==> next[0] in next;
        next
  }

  /** Opening one panel by its position (`v-model` with a single index): a position in range
      opens exactly its ticket, one out of range opens nothing, and single mode then reconciles. */
  lemma SetOneIndex(filtered: seq<Ticket>, mode: Mode, openIds: seq<string>, i: int)
    ensures 0 <= i < |filtered| ==> SetIndicesIds(filtered, mode, openIds, OneIndex(i)) == [filtered[i].id]
    ensures !(0 <= i < |filtered|) ==>
              SetIndicesIds(filtered, mode, openIds, OneIndex(i)) ==
              (if mode == Single then ReconcileIds(filtered, Single, []) else [])
  {
    assert IndexArray(OneIndex(i)) == [i];
    IdsAtOne(filtered, i);
  }

  /** The ids named by a single position: its ticket's id when it is in range, else none. */
  lemma IdsAtOne(filtered: seq<Ticket>, i: int)
    ensures IdsAtIndices(filtered, [i]) == if 0 <= i < |filtered| then [filtered[i].id] else []
  {
    var one := [i];
    assert one[..0] == [] && one[0] == i;
    assert IdsAtIndices(filtered, one) == if 0 <= i < |filtered| then Add([], filtered[i].id) else [];
  }

  /** The panel reported for one open shown ticket: in single mode its `findIndex`, and, when
      no two tickets share an id, in either mode exactly its own position. */
  lemma OneOpenPanel(filtered: seq<Ticket>, mode: Mode, i: int)
    requires 0 <= i < |filtered|
    ensures mode == Single ==>
              OpenPanelIndices(filtered, mode, [filtered[i].id]) == [FindIndex(filtered, filtered[i].id)]
    ensures NoDuplicates(Ids(filtered)) ==> OpenPanelIndices(filtered, mode, [filtered[i].id]) == [i]
  {
    var x := filtered[i].id;
    OneShown(filtered, mode, i);
    if mode == Single || NoDuplicates(Ids(filtered)) {
      PanelOfOne(filtered, mode, [x], x);
    }
    if NoDuplicates(Ids(filtered)) {
      FindIndexUnique(filtered, i);
    }
  }

  /** One open shown ticket is reported on its own in single mode, and in multiple mode when
      no other ticket carries its id. */
  lemma OneShown(filtered: seq<Ticket>, mode: Mode, i: int)
    requires 0 <= i < |filtered|
    ensures mode == Single || NoDuplicates(Ids(filtered)) ==>
              VisibleOpen(filtered, mode, [filtered[i].id]) == [filtered[i].id]
  {
    var x := filtered[i].id;
    var ids := Ids(filtered);
    assert ids[i] == x;
    var shown := VisibleOpen(filtered, mode, [x]);
    if mode == Single {
      assert AnyShown([x], filtered) by { assert FirstShownIndex([x], filtered) == 0; }
    } else if NoDuplicates(ids) {
      CountOnce(ids, i);
      SingleCount(shown, x);
    }
  }

  /** A single reported id has its `findIndex` as the single reported panel. */
  lemma PanelOfOne(filtered: seq<Ticket>, mode: Mode, openIds: seq<string>, x: string)
    requires VisibleOpen(filtered, mode, openIds) == [x]
    ensures OpenPanelIndices(filtered, mode, openIds) == [FindIndex(filtered, x)]
  {
    var r := OpenPanelIndices(filtered, mode, openIds);
    assert |r| == 1 && r[0] == FindIndex(filtered, VisibleOpen(filtered, mode, openIds)[0]);
  }

  /** When no two tickets share an id, `findIndex` of a shown ticket's id is its position. */
  lemma FindIndexUnique(filtered: seq<Ticket>, i: int)
    requires 0 <= i < |filtered| && NoDuplicates(Ids(filtered))
    ensures FindIndex(filtered, filtered[i].id) == i
  {
    var ids, x := Ids(filtered), filtered[i].id;
    assert ids[i] == x && x in ids;
    var k := FindIndex(filtered, x);
    assert 0 <= k < |ids| && ids[k] == x;
    assert !(k < i) && !(i < k);
  }

  /** The `v-model` round trip: after opening the panel at a position in range, the panel
      reported open is that position (when no two tickets share an id). */
  lemma SetPanelRoundTrip(filtered: seq<Ticket>, mode: Mode, openIds: seq<string>, i: int)
    requires 0 <= i < |filtered| && NoDuplicates(Ids(filtered))
    ensures OpenPanelIndices(filtered, mode, SetIndicesIds(filtered, mode, openIds, OneIndex(i))) == [i]
  {
    SetOneIndex(filtered, mode, openIds, i);
    OneOpenPanel(filtered, mode, i);
  }

  /** Closing the shown ids of a concatenation closes each part. */
  lemma {:induction false} CloseShownAppend(filtered: seq<Ticket>, a: seq<string>, b: seq<string>)
    ensures CloseShownIds(filtered, a + b) == CloseShownIds(filtered, a) + CloseShownIds(filtered, b)
    decreases |a|
  {
    if a == [] {
      assert a + b == b;
    } else {
      assert (a + b)[0] == a[0] && (a + b)[1..] == a[1..] + b;
      CloseShownAppend(filtered, a[1..], b);
      var head: seq<string> := if a[0] in Ids(filtered) then [] else [a[0]];
      var restA, restB := CloseShownIds(filtered, a[1..]), CloseShownIds(filtered, b);
      assert CloseShownIds(filtered, a) == head + restA;
      assert CloseShownIds(filtered, a + b) == head + (restA + restB);
      AppendAssoc(head, restA, restB);
    }
  }

  lemma CloseShownSingle(filtered: seq<Ticket>, x: string)
    ensures CloseShownIds(filtered, [x]) == if x in Ids(filtered) then [] else [x]
  {
    var one := [x];
    assert one[1..] == [];
  }
}
