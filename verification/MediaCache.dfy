/** The media store: files plus a table of sizes and last uses, pruned least recently
    used first. It is refined to a plain list of entries, least recent first. */
module MediaCache {
  import opened Prelude

  type Hash = string

  datatype Meta = Meta(size: nat, lastUsed: int)

  // ----- the abstract recency list -----

  datatype Entry = Entry(hash: Hash, size: nat)

  type Recency = seq<Entry>

  function Total(list: Recency): nat {
    if list == [] then 0 else list[0].size + Total(list[1..])
  }

  function Dropped(list: Recency, h: Hash): Recency {
    if list == [] then []
    else (if list[0].hash == h then [] else [list[0]]) + Dropped(list[1..], h)
  }

  predicate Lists(list: Recency, h: Hash) {
    exists e :: e in list && e.hash == h
  }

  function SizeOf(list: Recency, h: Hash): nat {
    if list == [] then 0 else if list[0].hash == h then list[0].size else SizeOf(list[1..], h)
  }

  /** Saving puts the entry at the recent end, with its new size. */
  function ListSaved(list: Recency, h: Hash, size: nat): Recency {
    Dropped(list, h) + [Entry(h, size)]
  }

  /** Reading moves a listed entry to the recent end. */
  function ListTouched(list: Recency, h: Hash): Recency {
    if Lists(list, h) then Dropped(list, h) + [Entry(h, SizeOf(list, h))] else list
  }

  /** The length of the shortest prefix to evict so that the rest fits. */
  function Evictions(list: Recency, maxBytes: int): (k: nat)
    ensures k <= |list|
  {
    if list == [] || Total(list) <= maxBytes then 0 else 1 + Evictions(list[1..], maxBytes)
  }

  function ListPruned(list: Recency, maxBytes: int): Recency {
    list[Evictions(list, maxBytes)..]
  }

  /** What pruning is for: the rest fits (or nothing is left), one eviction fewer would
      not do, and the sizes of what went and what stayed add up. */
  lemma {:induction false} PruneIsShortest(list: Recency, maxBytes: int)
    ensures var k := Evictions(list, maxBytes);
            && k <= |list|
            && (Total(list[k..]) <= maxBytes || k == |list|)
            && (forall j :: 0 <= j < k ==> Total(list[j..]) > maxBytes)
            && Total(list[..k]) + Total(list[k..]) == Total(list)
  {
    var k := Evictions(list, maxBytes);
    TotalSplits(list, k);
    if k > 0 {
      PruneIsShortest(list[1..], maxBytes);
      assert list[1..][k - 1..] == list[k..];
      forall j | 0 <= j < k
        ensures Total(list[j..]) > maxBytes
      {
        if j > 0 {
          assert list[1..][j - 1..] == list[j..];
        } else {
          assert list[0..] == list;
        }
      }
    } else {
      assert list[0..] == list;
    }
  }

  lemma {:induction false} TotalSplits(list: Recency, k: nat)
    requires k <= |list|
    ensures Total(list) == Total(list[..k]) + Total(list[k..])
    decreases |list|
  {
    if k > 0 {
      TotalSplits(list[1..], k - 1);
      assert list[..k][1..] == list[1..][..k - 1];
      assert list[1..][k - 1..] == list[k..];
    } else {
      assert list[..0] == [] && list[0..] == list;
    }
  }

  // ----- what a recent use is good for -----

  /** Dropping leaves the other entries in their order, and none of that hash. */
  lemma {:induction false} DroppedOfJoined(a: Recency, b: Recency, h: Hash)
    ensures Dropped(a + b, h) == Dropped(a, h) + Dropped(b, h)
  {
    if a == [] {
      assert a + b == b;
    } else {
      DroppedOfJoined(a[1..], b, h);
      DroppedOfCons(a[0], a[1..], h);
      DroppedOfCons(a[0], a[1..] + b, h);
      assert a == [a[0]] + a[1..] && a + b == [a[0]] + (a[1..] + b);
      JoinedLists([a[0]], Dropped(a[1..], h), Dropped(b, h));
    }
  }

  lemma JoinedLists(a: Recency, b: Recency, c: Recency)
    ensures a + (b + c) == a + b + c
  {
  }

  lemma DroppedOfCons(e: Entry, rest: Recency, h: Hash)
    ensures Dropped([e] + rest, h) == if e.hash == h then Dropped(rest, h) else [e] + Dropped(rest, h)
  {
    assert ([e] + rest)[1..] == rest;
  }

  lemma {:induction false} DroppedMembers(list: Recency, h: Hash, e: Entry)
    ensures e in Dropped(list, h) <==> e in list && e.hash != h
  {
    if list != [] {
      DroppedMembers(list[1..], h, e);
      assert list == [list[0]] + list[1..];
    }
  }

  /** A save makes its entry, with the new size, the most recent one, and the only one of
      its hash. */
  lemma SavedIsMostRecent(list: Recency, h: Hash, size: nat, e: Entry)
    ensures var saved := ListSaved(list, h, size);
            && saved != [] && saved[|saved| - 1] == Entry(h, size)
            && (e in saved <==> e == Entry(h, size) || (e in list && e.hash != h))
  {
    DroppedMembers(list, h, e);
    var saved := ListSaved(list, h, size);
    assert saved == Dropped(list, h) + [Entry(h, size)];
  }

  /** A read makes a listed entry the most recent one, and changes nothing otherwise. */
  lemma TouchedIsMostRecent(list: Recency, h: Hash)
    ensures var touched := ListTouched(list, h);
            if Lists(list, h)
            then touched == ListSaved(list, h, SizeOf(list, h)) && touched[|touched| - 1] == Entry(h, SizeOf(list, h))
            else touched == list
  {
  }

  /** The most recent entry is evicted only if not even it fits alone. */
  lemma {:induction false} MostRecentSurvivesIff(list: Recency, e: Entry, maxBytes: int)
    ensures e in ListPruned(list + [e], maxBytes) || e.size > maxBytes
    ensures e.size <= maxBytes ==> Evictions(list + [e], maxBytes) <= |list|
  {
    if list == [] {
      assert [e][..1] == [e] && Total([e]) == e.size;
      assert e.size <= maxBytes ==> ListPruned([e], maxBytes) == [e];
      assert list + [e] == [e];
    } else {
      MostRecentSurvivesIff(list[1..], e, maxBytes);
      assert (list + [e])[1..] == list[1..] + [e];
      var k := Evictions(list + [e], maxBytes);
      if e.size <= maxBytes {
        assert (list + [e])[|list|] == e;
        assert ListPruned(list + [e], maxBytes)[|list| - k] == e;
      }
    }
  }

  /** So what was just saved, or just read, survives a pruning that leaves room for it. */
  lemma JustUsedSurvives(list: Recency, h: Hash, size: nat, maxBytes: int)
    requires size <= maxBytes
    ensures Entry(h, size) in ListPruned(ListSaved(list, h, size), maxBytes)
    ensures Lists(list, h) && SizeOf(list, h) == size ==> Entry(h, size) in ListPruned(ListTouched(list, h), maxBytes)
  {
    MostRecentSurvivesIff(Dropped(list, h), Entry(h, size), maxBytes);
  }

  // ----- the table and its relation to the list -----

  type Rows = map<Hash, Meta>

  /** `list` enumerates the rows, each once, by strictly increasing times of last use in
      the interval from `floor` (exclusive) to `clock`. */
  ghost predicate Refines(rows: Rows, list: Recency, floor: int, clock: int)
    decreases |list|
  {
    if list == [] then rows == map[] && floor <= clock
    else
      var h := list[0].hash;
      && h in rows
      && rows[h].size == list[0].size
      && floor < rows[h].lastUsed
      && Refines(rows - {h}, list[1..], rows[h].lastUsed, clock)
  }

  lemma {:induction false} RefinesBounds(rows: Rows, list: Recency, floor: int, clock: int, h: Hash)
    requires Refines(rows, list, floor, clock)
    ensures floor <= clock
    ensures h in rows ==> floor < rows[h].lastUsed <= clock
    decreases |list|
  {
    if list != [] {
      var g := list[0].hash;
      RefinesBounds(rows - {g}, list[1..], rows[g].lastUsed, clock, h);
      RefinesBounds(rows - {g}, list[1..], rows[g].lastUsed, clock, g);
    }
  }

  lemma LowerFloor(rows: Rows, list: Recency, floor: int, lower: int, clock: int)
    requires Refines(rows, list, floor, clock) && lower <= floor
    ensures Refines(rows, list, lower, clock)
  {
  }

  lemma {:induction false} RefinesMembers(rows: Rows, list: Recency, floor: int, clock: int, h: Hash)
    requires Refines(rows, list, floor, clock)
    ensures h in rows <==> Lists(list, h)
    ensures h in rows ==> SizeOf(list, h) == rows[h].size
    decreases |list|
  {
    if list != [] {
      var g := list[0].hash;
      RefinesMembers(rows - {g}, list[1..], rows[g].lastUsed, clock, h);
      assert list[0] in list;
      if h != g {
        assert Lists(list, h) <==> Lists(list[1..], h) by {
          assert list == [list[0]] + list[1..];
        }
      }
    }
  }

  lemma {:induction false} DroppedAbsent(rows: Rows, list: Recency, floor: int, clock: int, h: Hash)
    requires Refines(rows, list, floor, clock) && h !in rows
    ensures Dropped(list, h) == list
    decreases |list|
  {
    if list != [] {
      var g := list[0].hash;
      DroppedAbsent(rows - {g}, list[1..], rows[g].lastUsed, clock, h);
    }
  }

  lemma {:induction false} DroppedRefines(rows: Rows, list: Recency, floor: int, clock: int, h: Hash)
    requires Refines(rows, list, floor, clock)
    ensures Refines(rows - {h}, Dropped(list, h), floor, clock)
    decreases |list|
  {
    if list == [] {
      assert rows - {h} == map[];
    } else {
      var g := list[0].hash;
      var t := rows[g].lastUsed;
      if g == h {
        DroppedAbsent(rows - {g}, list[1..], t, clock, h);
        LowerFloor(rows - {g}, list[1..], t, floor, clock);
        assert Dropped(list, h) == list[1..];
      } else {
        DroppedRefines(rows - {g}, list[1..], t, clock, h);
        assert rows - {g} - {h} == rows - {h} - {g};
        assert Dropped(list, h)[1..] == Dropped(list[1..], h);
      }
    }
  }

  lemma {:induction false} AppendedRefines(rows: Rows, list: Recency, floor: int, clock: int, h: Hash, size: nat,
                                           now: int)
    requires Refines(rows, list, floor, clock) && h !in rows && now > clock
    ensures Refines(rows[h := Meta(size, now)], list + [Entry(h, size)], floor, now)
    decreases |list|
  {
    var longer := list + [Entry(h, size)];
    var rows' := rows[h := Meta(size, now)];
    if list == [] {
      assert longer[1..] == [] && rows' - {h} == map[];
    } else {
      var g := list[0].hash;
      AppendedRefines(rows - {g}, list[1..], rows[g].lastUsed, clock, h, size, now);
      assert longer[1..] == list[1..] + [Entry(h, size)];
      assert rows' - {g} == (rows - {g})[h := Meta(size, now)];
    }
  }

  /** The list is determined by the rows: there is only one order of last use. */
  lemma {:induction false} RefinementUnique(rows: Rows, l1: Recency, l2: Recency, floor: int, clock: int)
    requires Refines(rows, l1, floor, clock) && Refines(rows, l2, floor, clock)
    ensures l1 == l2
    decreases |l1|
  {
    if l1 != [] && l2 != [] {
      var g1, g2 := l1[0].hash, l2[0].hash;
      RefinesBounds(rows - {g1}, l1[1..], rows[g1].lastUsed, clock, g2);
      RefinesBounds(rows - {g2}, l2[1..], rows[g2].lastUsed, clock, g1);
      assert g1 == g2;
      RefinementUnique(rows - {g1}, l1[1..], l2[1..], rows[g1].lastUsed, clock);
      assert l1 == [l1[0]] + l1[1..] && l2 == [l2[0]] + l2[1..];
    }
  }

  lemma SavedRefines(rows: Rows, list: Recency, floor: int, clock: int, h: Hash, size: nat, now: int)
    requires Refines(rows, list, floor, clock) && now > clock
    ensures Refines(rows[h := Meta(size, now)], ListSaved(list, h, size), floor, now)
  {
    DroppedRefines(rows, list, floor, clock, h);
    AppendedRefines(rows - {h}, Dropped(list, h), floor, clock, h, size, now);
    assert rows[h := Meta(size, now)] == (rows - {h})[h := Meta(size, now)];
  }

  lemma {:induction false} RaiseClock(rows: Rows, list: Recency, floor: int, clock: int, later: int)
    requires Refines(rows, list, floor, clock) && clock <= later
    ensures Refines(rows, list, floor, later)
    decreases |list|
  {
    if list != [] {
      var g := list[0].hash;
      RaiseClock(rows - {g}, list[1..], rows[g].lastUsed, clock, later);
    }
  }

  lemma TouchedRefines(rows: Rows, list: Recency, floor: int, clock: int, h: Hash, now: int)
    requires Refines(rows, list, floor, clock) && now > clock
    ensures h in rows <==> Lists(list, h)
    ensures h in rows ==> Refines(rows[h := Meta(rows[h].size, now)], ListTouched(list, h), floor, now)
    ensures h !in rows ==> ListTouched(list, h) == list && Refines(rows, list, floor, now)
  {
    RefinesMembers(rows, list, floor, clock, h);
    if h in rows {
      SavedRefines(rows, list, floor, clock, h, rows[h].size, now);
    } else {
      RaiseClock(rows, list, floor, clock, now);
    }
  }

  /** The head's hash occurs once, so dropping it is taking the tail. */
  lemma DropHead(rows: Rows, list: Recency, floor: int, clock: int)
    requires Refines(rows, list, floor, clock) && list != []
    ensures Dropped(list, list[0].hash) == list[1..]
  {
    var g := list[0].hash;
    DroppedAbsent(rows - {g}, list[1..], rows[g].lastUsed, clock, g);
  }

  // ----- the store object -----

  /** Every row has its file, of the size it says. */
  ghost predicate Backed(rows: Rows, files: map<Hash, Bytes>) {
    forall h :: h in rows ==> h in files && |files[h]| == rows[h].size
  }

  /** How far a save gets: without its directory, without its file (and what a failed
      write left of it), without its row, or all the way. */
  datatype Fate = NoDirectory | NoFile(left: Option<Bytes>) | NoRow | Written

  function FilesAfter(files: map<Hash, Bytes>, h: Hash, data: Bytes, fate: Fate): map<Hash, Bytes> {
    match fate
    case NoDirectory => files
    case NoFile(left) => if left.Some? then files[h := left.value] else files
    case NoRow => files[h := data]
    case Written => files[h := data]
  }

  function RowsAfter(rows: Rows, h: Hash, data: Bytes, now: int, fate: Fate): Rows {
    if fate.Written? then rows[h := Meta(|data|, now)] else rows
  }

  /** What a caller can check beforehand: the save succeeds or changes no file, or the
      hash has no row yet, or what ends up in its file has the size the row says. */
  predicate KeepsBacked(rows: Rows, h: Hash, data: Bytes, fate: Fate) {
    match fate
    case NoDirectory => true
    case NoFile(left) => left.None? || h !in rows || |left.value| == rows[h].size
    case NoRow => h !in rows || |data| == rows[h].size
    case Written => true
  }

  /** A save leaves every row with a file of its size if and only if that condition held. */
  lemma KeepsBackedIff(rows: Rows, files: map<Hash, Bytes>, h: Hash, data: Bytes, now: int, fate: Fate)
    requires Backed(rows, files)
    ensures Backed(RowsAfter(rows, h, data, now, fate), FilesAfter(files, h, data, fate)) <==>
            KeepsBacked(rows, h, data, fate)
  {
    var rows', files' := RowsAfter(rows, h, data, now, fate), FilesAfter(files, h, data, fate);
    assert forall g :: g in rows && g != h ==> g in rows' && rows'[g] == rows[g];
    assert forall g :: g in rows && g != h ==> g in files' && files'[g] == files[g];
  }

  /** Two saves under one hash are enough: the second writes its file, but not its row. */
  lemma FailedSaveBreaksStore(h: Hash, first: Bytes, second: Bytes, now: int, later: int)
    requires |first| != |second|
    ensures var rows := RowsAfter(map[], h, first, now, Written);
            var files := FilesAfter(map[], h, first, Written);
            && Backed(rows, files)
            && !Backed(RowsAfter(rows, h, second, later, NoRow), FilesAfter(files, h, second, NoRow))
  {
    var rows, files := RowsAfter(map[], h, first, now, Written), FilesAfter(map[], h, first, Written);
    KeepsBackedIff(rows, files, h, second, later, NoRow);
  }

  function Hashes(list: Recency): set<Hash> {
    set e | e in list :: e.hash
  }

  class MediaStore {
    var rows: Rows
    var files: map<Hash, Bytes>
    ghost var list: Recency        // least recently used first
    ghost const floor: int         // every time seen is later
    ghost var clock: int           // the latest time seen

    ghost predicate Valid()
      reads this
    {
      Refines(rows, list, floor, clock) && Backed(rows, files)
    }

    constructor (ghost start: int)
      ensures Valid() && list == [] && files == map[] && clock == start
    {
      rows, files := map[], map[];
      floor, list, clock := start, [], start;
    }

    /** Directory, file and row are written in turn, and the first failure ends it. A
        failed write of the file may leave some of it behind. Before the row only the
        file of the hash changes. */
    method SaveMedia(h: Hash, data: Bytes, now: int, fate: Fate) returns (ok: bool)
      requires Valid() && now > clock
      modifies this
      ensures ok <==> fate.Written?
      ensures files == FilesAfter(old(files), h, data, fate)
      ensures if ok then list == ListSaved(old(list), h, |data|) && clock == now
              else list == old(list) && clock == old(clock) && rows == old(rows)
      ensures Valid() <==> KeepsBacked(old(rows), h, data, fate)
    {
      KeepsBackedIff(rows, files, h, data, now, fate);
      if fate.NoDirectory? {
        return false;
      }
      if fate.NoFile? {
        if fate.left.Some? {
          files := files[h := fate.left.value];
        }
        return false;
      }
      files := files[h := data];
      if fate.NoRow? {
        return false;
      }
      SavedRefines(rows, list, floor, clock, h, |data|, now);
      rows := rows[h := Meta(|data|, now)];
      list, clock := ListSaved(list, h, |data|), now;
      return true;
    }

    /** The row is touched whether or not the file can be read. */
    method GetMedia(h: Hash, now: int) returns (data: Option<Bytes>)
      requires Valid() && now > clock
      modifies this`rows, this`list, this`clock
      ensures Valid() && clock == now
      ensures list == ListTouched(old(list), h)
      ensures data == if h in files then Some(files[h]) else None
      ensures Lists(old(list), h) ==> data.Some?
    {
      TouchedRefines(rows, list, floor, clock, h, now);
      if h in rows {
        rows := rows[h := rows[h].(lastUsed := now)];
      }
      list, clock := ListTouched(list, h), now;
      data := if h in files then Some(files[h]) else None;
    }

    method DeleteMedia(h: Hash)
      requires Valid()
      modifies this`rows, this`files, this`list
      ensures Valid()
      ensures files == old(files) - {h} && list == Dropped(old(list), h)
    {
      DroppedRefines(rows, list, floor, clock, h);
      files := files - {h};
      rows := rows - {h};
      list := Dropped(list, h);
    }

    /** Evicts in order of last use until the rest fits; `freed` is the drop in total. */
    method PruneMediaCache(maxBytes: int) returns (freed: nat)
      requires Valid()
      modifies this`rows, this`files, this`list
      ensures Valid()
      ensures list == ListPruned(old(list), maxBytes)
      ensures freed == Total(old(list)) - Total(list)
      ensures files == old(files) - Hashes(old(list)[..Evictions(old(list), maxBytes)])
    {
      var order := ByLastUse(rows, list, floor, clock);
      var total := SumSizes(order);
      freed := 0;
      assert order[0..] == order && order[..0] == [];
      if order == [] || total <= maxBytes {
        return;
      }
      var current: int := total;
      var i := 0;
      while i < |order| && current > maxBytes
        invariant 0 <= i <= |order| && Valid()
        invariant list == order[i..] && current == Total(list) && freed + current == Total(order)
        invariant i + Evictions(list, maxBytes) == Evictions(order, maxBytes)
        invariant files == old(files) - Hashes(order[..i])
      {
        HashesNext(order, i);
        freed := freed + order[i].size;
        current := current - order[i].size;
        EvictOldest(order[i].hash);
        i := i + 1;
      }
    }

    /** Deleting the entry at the old end of the list. */
    method EvictOldest(h: Hash)
      requires Valid() && list != [] && list[0].hash == h
      modifies this`rows, this`files, this`list
      ensures Valid() && list == old(list)[1..] && files == old(files) - {h}
    {
      DropHead(rows, list, floor, clock);
      DeleteMedia(h);
    }
  }

  lemma HashesNext(order: seq<Entry>, i: nat)
    requires i < |order|
    ensures Hashes(order[..i + 1]) == Hashes(order[..i]) + {order[i].hash}
  {
    assert order[..i + 1] == order[..i] + [order[i]];
  }

  /** SELECT ... ORDER BY last_used: picks the least recently used row again and again. */
  method ByLastUse(rows: Rows, ghost list: Recency, ghost floor: int, ghost clock: int) returns (order: seq<Entry>)
    requires Refines(rows, list, floor, clock)
    ensures order == list
  {
    order := [];
    var left := rows;
    ghost var suffix, from := list, floor;
    while left != map[]
      invariant order + suffix == list && Refines(left, suffix, from, clock)
      decreases |suffix|
    {
      var h := LeastUsed(left, suffix, from, clock);
      var e := Entry(h, left[h].size);
      assert order + suffix == (order + [e]) + suffix[1..];
      from := left[h].lastUsed;
      left := left - {h};
      order, suffix := order + [e], suffix[1..];
    }
    assert suffix == [];
  }

  method LeastUsed(left: Rows, ghost suffix: Recency, ghost floor: int, ghost clock: int) returns (h: Hash)
    requires left != map[] && Refines(left, suffix, floor, clock)
    ensures h in left && suffix != [] && suffix[0] == Entry(h, left[h].size)
  {
    var todo := left.Keys;
    h :| h in left;
    while todo != {}
      invariant todo <= left.Keys && h in left
      invariant forall g :: g in left.Keys - todo ==> left[h].lastUsed <= left[g].lastUsed
      decreases todo
    {
      var g :| g in todo;
      if left[g].lastUsed < left[h].lastUsed {
        h := g;
      }
      todo := todo - {g};
    }
    ghost var first := suffix[0].hash;
    assert left[h].lastUsed <= left[first].lastUsed;
    RefinesBounds(left - {first}, suffix[1..], left[first].lastUsed, clock, h);
  }

  /** The sum the query returns. */
  method SumSizes(order: seq<Entry>) returns (total: nat)
    ensures total == Total(order)
  {
    total := 0;
    for i := 0 to |order|
      invariant total + Total(order[i..]) == Total(order)
    {
      total := total + order[i].size;
    }
  }
}
