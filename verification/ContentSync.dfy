/** The reconciliation commands src/commands/cli/commands/sync-user-posts.command.ts and
    sync-user-comments.command.ts: they make a per-user table agree with the posts or comments it mirrors.
    A run is one step with one clock reading. */
module ContentSync {
  import opened Common

  datatype Kind = Post | PostComment | SiteReviewComment | ScamReportComment

  /** A source row of the user, soft-deleted ones included. */
  datatype Item = Item(id: int, createdAt: int, updatedAt: int, deletedAt: Option<int>)

  /** A mirror row: what it mirrors is its key, so there is one row per key. */
  datatype Key = Key(user: int, kind: Kind, item: int)

  datatype Row = Row(createdAt: int, updatedAt: int, deletedAt: Option<int>)

  type Table = map<Key, Row>

  datatype Source = Source(kind: Kind, items: seq<Item>)

  datatype Counts = Counts(created: nat, updated: nat, softDeleted: nat)

  function Get(t: Table, k: Key): Option<Row> {
    if k in t then Some(t[k]) else None
  }

  // ----- The repository operations -----

  function SoftDeleted(r: Row, now: int): Row {
    r.(deletedAt := Some(now), updatedAt := now)
  }

  function Restored(r: Row, now: int): Row {
    r.(deletedAt := None, updatedAt := now)
  }

  /** `save` writes the changed columns. When something changed but not the update date, the update date is
      set to the current time. */
  function Saved(stored: Row, r: Row, now: int): Row {
    if r != stored && r.updatedAt == stored.updatedAt then r.(updatedAt := now) else r
  }

  // ----- One item -----

  function SyncExisting(r: Row, item: Item, now: int): Row {
    var stamped := r.(createdAt := item.createdAt, updatedAt := item.updatedAt);
    if item.deletedAt.Some? then
      if r.deletedAt == None then SoftDeleted(r, now)
      else Saved(r, stamped.(deletedAt := item.deletedAt), now)
    else if r.deletedAt.Some? then
      var restored := Restored(r, now);
      Saved(restored, restored.(createdAt := item.createdAt, updatedAt := item.updatedAt), now)
    else Saved(r, stamped, now)
  }

  function SyncNew(item: Item, now: int): Row {
    var r := Row(item.createdAt, item.updatedAt, item.deletedAt);
    if item.deletedAt.Some? then SoftDeleted(r, now) else r
  }

  function SyncRow(r: Option<Row>, item: Item, now: int): Row {
    if r.Some? then SyncExisting(r.value, item, now) else SyncNew(item, now)
  }

  /** Whether syncing this item counts as a soft delete. */
  predicate CountsAsDelete(r: Option<Row>, item: Item) {
    item.deletedAt.Some? && (r == None || r.value.deletedAt == None)
  }

  // ----- One source, and all of them -----

  function SyncAll(t: Table, user: int, kind: Kind, items: seq<Item>, now: int): Table {
    if items == [] then t
    else
      var n := |items| - 1;
      var before := SyncAll(t, user, kind, items[..n], now);
      var k := Key(user, kind, items[n].id);
      before[k := SyncRow(Get(before, k), items[n], now)]
  }

  function CountAll(t: Table, user: int, kind: Kind, items: seq<Item>): Counts {
    if items == [] then Counts(0, 0, 0)
    else
      var n := |items| - 1;
      var c := CountAll(t, user, kind, items[..n]);
      var r := Get(t, Key(user, kind, items[n].id));
      Counts(c.created + (if r == None then 1 else 0), c.updated + (if r.Some? then 1 else 0),
             c.softDeleted + if CountsAsDelete(r, items[n]) then 1 else 0)
  }

  predicate DistinctIds(items: seq<Item>) {
    forall i, j :: 0 <= i < j < |items| ==> items[i].id != items[j].id
  }

  function FindItem(items: seq<Item>, id: int): (r: Option<Item>)
    ensures r.Some? ==> r.value in items && r.value.id == id
    ensures r == None ==> forall i :: 0 <= i < |items| ==> items[i].id != id
  {
    if items == [] then None
    else if items[|items| - 1].id == id then Some(items[|items| - 1])
    else FindItem(items[..|items| - 1], id)
  }

  /** The row under key k after syncing a source. */
  function SyncedAt(t: Table, user: int, kind: Kind, items: seq<Item>, now: int, k: Key): Option<Row> {
    if k.user == user && k.kind == kind && FindItem(items, k.item).Some?
    then Some(SyncRow(Get(t, k), FindItem(items, k.item).value, now))
    else Get(t, k)
  }

  lemma {:induction false} SyncAllAt(t: Table, user: int, kind: Kind, items: seq<Item>, now: int, k: Key)
    requires DistinctIds(items)
    ensures Get(SyncAll(t, user, kind, items, now), k) == SyncedAt(t, user, kind, items, now, k)
    decreases |items|
  {
    if items != [] {
      var n := |items| - 1;
      SyncAllAt(t, user, kind, items[..n], now, k);
      if k == Key(user, kind, items[n].id) {
        NotFound(items[..n], items[n].id);
      }
    }
  }

  lemma {:induction false} NotFound(items: seq<Item>, id: int)
    requires forall i :: 0 <= i < |items| ==> items[i].id != id
    ensures FindItem(items, id) == None
    decreases |items|
  {
    if items != [] {
      NotFound(items[..|items| - 1], id);
    }
  }

  lemma {:induction false} CountsAddUp(t: Table, user: int, kind: Kind, items: seq<Item>)
    ensures var c := CountAll(t, user, kind, items); c.created + c.updated == |items|
  {
    if items != [] {
      CountsAddUp(t, user, kind, items[..|items| - 1]);
    }
  }

  // ----- A whole run -----

  function SyncSources(t: Table, user: int, sources: seq<Source>, now: int): Table {
    if sources == [] then t
    else
      var s := sources[|sources| - 1];
      SyncAll(SyncSources(t, user, sources[..|sources| - 1], now), user, s.kind, s.items, now)
  }

  predicate HasId(sources: seq<Source>, id: int) {
    exists i :: 0 <= i < |sources| && FindItem(sources[i].items, id).Some?
  }

  /** A row of the user whose item no source knows. The command compares by item id alone. */
  predicate Orphan(sources: seq<Source>, user: int, k: Key) {
    k.user == user && !HasId(sources, k.item)
  }

  function DeleteOrphans(t: Table, user: int, sources: seq<Source>, now: int): Table {
    map k | k in t :: if Orphan(sources, user, k) && t[k].deletedAt == None then SoftDeleted(t[k], now) else t[k]
  }

  function Handle(t: Table, user: int, sources: seq<Source>, now: int): Table {
    DeleteOrphans(SyncSources(t, user, sources, now), user, sources, now)
  }

  /** Each source names its items once, and no two sources have the same kind. */
  predicate WellFormed(sources: seq<Source>) {
    (forall i :: 0 <= i < |sources| ==> DistinctIds(sources[i].items))
    && forall i, j :: 0 <= i < j < |sources| ==> sources[i].kind != sources[j].kind
  }

  /** The source item a key mirrors, if any. */
  function Mirrored(sources: seq<Source>, k: Key): Option<Item> {
    if sources == [] then None
    else
      var s := sources[|sources| - 1];
      if s.kind == k.kind && FindItem(s.items, k.item).Some? then FindItem(s.items, k.item)
      else Mirrored(sources[..|sources| - 1], k)
  }

  lemma {:induction false} NotMirroredElsewhere(sources: seq<Source>, k: Key)
    requires forall i :: 0 <= i < |sources| ==> sources[i].kind != k.kind
    ensures Mirrored(sources, k) == None
    decreases |sources|
  {
    if sources != [] {
      NotMirroredElsewhere(sources[..|sources| - 1], k);
    }
  }

  lemma {:induction false} SyncSourcesAt(t: Table, user: int, sources: seq<Source>, now: int, k: Key)
    requires WellFormed(sources)
    ensures Get(SyncSources(t, user, sources, now), k)
            == if k.user == user && Mirrored(sources, k).Some?
               then Some(SyncRow(Get(t, k), Mirrored(sources, k).value, now)) else Get(t, k)
    decreases |sources|
  {
    if sources != [] {
      var n := |sources| - 1;
      var s := sources[n];
      SyncSourcesAt(t, user, sources[..n], now, k);
      SyncAllAt(SyncSources(t, user, sources[..n], now), user, s.kind, s.items, now, k);
      if s.kind == k.kind {
        NotMirroredElsewhere(sources[..n], k);
      }
    }
  }

  lemma {:induction false} MirroredIsKnown(sources: seq<Source>, k: Key)
    requires Mirrored(sources, k).Some?
    ensures HasId(sources, k.item) && Mirrored(sources, k).value.id == k.item
    decreases |sources|
  {
    var n := |sources| - 1;
    var s := sources[n];
    if s.kind == k.kind && FindItem(s.items, k.item).Some? {
      assert FindItem(sources[n].items, k.item).Some?;
    } else {
      MirroredIsKnown(sources[..n], k);
      var i :| 0 <= i < n && FindItem(sources[..n][i].items, k.item).Some?;
      assert FindItem(sources[i].items, k.item).Some?;
    }
  }

  /** The table after a run, key by key: mirrored items synced, orphans of this user deleted, and everything
      else, in particular every other user, untouched. */
  lemma HandleAt(t: Table, user: int, sources: seq<Source>, now: int, k: Key)
    requires WellFormed(sources)
    ensures var r := Get(Handle(t, user, sources, now), k);
            if k.user == user && Mirrored(sources, k).Some? then
              r == Some(SyncRow(Get(t, k), Mirrored(sources, k).value, now))
            else if Orphan(sources, user, k) && k in t && t[k].deletedAt == None then
              r == Some(SoftDeleted(t[k], now))
            else r == Get(t, k)
  {
    SyncSourcesAt(t, user, sources, now, k);
    if Mirrored(sources, k).Some? {
      MirroredIsKnown(sources, k);
    }
  }

  /** After one run every source item has its row, deleted exactly when the item is, and every orphan row of
      the user is deleted. */
  lemma RunReconciles(t: Table, user: int, sources: seq<Source>, now: int, k: Key)
    requires WellFormed(sources) && k.user == user
    ensures var r := Get(Handle(t, user, sources, now), k);
            (Mirrored(sources, k).Some? ==>
               r.Some? && (r.value.deletedAt.Some? <==> Mirrored(sources, k).value.deletedAt.Some?))
            && (Orphan(sources, user, k) && r.Some? ==> r.value.deletedAt.Some?)
  {
    HandleAt(t, user, sources, now, k);
    if Mirrored(sources, k).Some? {
      MirroredIsKnown(sources, k);
    }
  }

  /** Which item a key mirrors: the one of its id in the source of its kind. */
  lemma {:induction false} MirroredIff(sources: seq<Source>, k: Key, item: Item)
    requires WellFormed(sources)
    ensures Mirrored(sources, k) == Some(item) <==>
              item.id == k.item
              && exists i :: 0 <= i < |sources| && sources[i].kind == k.kind && item in sources[i].items
    decreases |sources|
  {
    if Mirrored(sources, k) == Some(item) {
      MirroredIsKnown(sources, k);
      MirroredInSource(sources, k);
    }
    if item.id == k.item {
      if i :| 0 <= i < |sources| && sources[i].kind == k.kind && item in sources[i].items {
        MirroredHere(sources, i, item, k.user);
      }
    }
  }

  lemma {:induction false} MirroredInSource(sources: seq<Source>, k: Key)
    requires Mirrored(sources, k).Some?
    ensures exists i ::
              0 <= i < |sources| && sources[i].kind == k.kind && Mirrored(sources, k).value in sources[i].items
    decreases |sources|
  {
    var n := |sources| - 1;
    var s := sources[n];
    if s.kind == k.kind && FindItem(s.items, k.item).Some? {
      assert Mirrored(sources, k).value in sources[n].items;
    } else {
      MirroredInSource(sources[..n], k);
      var i :| 0 <= i < n && sources[..n][i].kind == k.kind && Mirrored(sources[..n], k).value in sources[..n][i].items;
      assert sources[i].kind == k.kind;
    }
  }

  /** The row of a live item after one run: the item's dates, whether the row is new, restored or of another update
      date; a row that has the item's update date but not its creation date is stamped with the time of the run. */
  lemma LiveItemAfterOneRun(t: Table, user: int, sources: seq<Source>, now: int, k: Key)
    requires WellFormed(sources) && k.user == user
    requires Mirrored(sources, k).Some? && Mirrored(sources, k).value.deletedAt == None
    ensures var item := Mirrored(sources, k).value;
            Get(Handle(t, user, sources, now), k)
            == Some(if k in t && t[k].deletedAt == None
                       && t[k].updatedAt == item.updatedAt && t[k].createdAt != item.createdAt
                    then Row(item.createdAt, now, None)
                    else Row(item.createdAt, item.updatedAt, None))
  {
    HandleAt(t, user, sources, now, k);
  }

  /** The row of a deleted item after one run: a row that is newly deleted, or new, is stamped with the time of the
      run; one that was deleted already gets the item's dates, except that the time of the run becomes its update
      date if only other dates had to change. */
  lemma DeletedItemAfterOneRun(t: Table, user: int, sources: seq<Source>, now: int, k: Key)
    requires WellFormed(sources) && k.user == user
    requires Mirrored(sources, k).Some? && Mirrored(sources, k).value.deletedAt.Some?
    ensures var item := Mirrored(sources, k).value;
            Get(Handle(t, user, sources, now), k)
            == Some(if k !in t then Row(item.createdAt, now, Some(now))
                    else if t[k].deletedAt == None then Row(t[k].createdAt, now, Some(now))
                    else if t[k].updatedAt == item.updatedAt
                            && (t[k].createdAt != item.createdAt || t[k].deletedAt != item.deletedAt)
                    then Row(item.createdAt, now, item.deletedAt)
                    else Row(item.createdAt, item.updatedAt, item.deletedAt))
  {
    HandleAt(t, user, sources, now, k);
  }

  /** Hence a row carries its item's dates after one run if and only if one of these holds: the item was written at
      the time of the run (and, for a row newly deleted, deleted then and created when the row was); or the run
      does not delete the row, and it was not just the update date that was right before. */
  lemma DatesRightAfterOneRunIff(t: Table, user: int, sources: seq<Source>, now: int, k: Key)
    requires WellFormed(sources) && k.user == user && Mirrored(sources, k).Some?
    ensures var item := Mirrored(sources, k).value;
            var dates := Row(item.createdAt, item.updatedAt, item.deletedAt);
            Get(Handle(t, user, sources, now), k) == Some(dates) <==>
              if item.deletedAt.Some? && (k !in t || t[k].deletedAt == None) then
                item.updatedAt == now && item.deletedAt == Some(now) && (k in t ==> t[k].createdAt == item.createdAt)
              else
                item.updatedAt == now || k !in t || t[k] == dates || t[k].updatedAt != item.updatedAt
                || (item.deletedAt == None && t[k].deletedAt.Some?)
  {
    if Mirrored(sources, k).value.deletedAt == None {
      LiveItemAfterOneRun(t, user, sources, now, k);
    } else {
      DeletedItemAfterOneRun(t, user, sources, now, k);
    }
  }

  /** Every other row after one run: a live row of the user whose id no source knows is deleted at the time of the
      run, and the rest, all rows of other users included, is as before. */
  lemma OtherRowsAfterOneRun(t: Table, user: int, sources: seq<Source>, now: int, k: Key)
    requires WellFormed(sources) && (k.user != user || Mirrored(sources, k) == None)
    ensures Get(Handle(t, user, sources, now), k)
            == if k in t && k.user == user && t[k].deletedAt == None
                  && (forall i, j :: 0 <= i < |sources| && 0 <= j < |sources[i].items| ==>
                        sources[i].items[j].id != k.item)
               then Some(Row(t[k].createdAt, now, Some(now)))
               else Get(t, k)
  {
    HandleAt(t, user, sources, now, k);
    KnownIff(sources, k.item);
  }

  lemma KnownIff(sources: seq<Source>, id: int)
    ensures HasId(sources, id) <==>
              exists i, j :: 0 <= i < |sources| && 0 <= j < |sources[i].items| && sources[i].items[j].id == id
  {
    if HasId(sources, id) {
      var i :| 0 <= i < |sources| && FindItem(sources[i].items, id).Some?;
      var j :| 0 <= j < |sources[i].items| && sources[i].items[j] == FindItem(sources[i].items, id).value;
      assert sources[i].items[j].id == id;
    }
    if i, j :| 0 <= i < |sources| && 0 <= j < |sources[i].items| && sources[i].items[j].id == id {
      assert FindItem(sources[i].items, id).Some?;
    }
  }

  predicate LiveRow(t: Table, k: Key) {
    k in t && t[k].deletedAt == None
  }

  predicate LiveItem(sources: seq<Source>, k: Key) {
    Mirrored(sources, k).Some? && Mirrored(sources, k).value.deletedAt == None
  }

  /** A row filed under a kind that has no such item, while another source has an item of that id. */
  predicate Misfiled(sources: seq<Source>, k: Key) {
    Mirrored(sources, k) == None && HasId(sources, k.item)
  }

  /** The live rows of the user mirror the live items exactly, if and only if no live row was misfiled: the
      orphan pass goes by id alone and does not see those. */
  lemma MirrorIsExactIffNothingMisfiled(t: Table, user: int, sources: seq<Source>, now: int)
    requires WellFormed(sources)
    ensures (forall k: Key :: k.user == user ==> (LiveRow(Handle(t, user, sources, now), k) <==> LiveItem(sources, k)))
            <==> forall k: Key :: k.user == user && LiveRow(t, k) ==> !Misfiled(sources, k)
  {
    var after := Handle(t, user, sources, now);
    forall k: Key | k.user == user
      ensures (LiveRow(after, k) <==> LiveItem(sources, k)) <==> !(LiveRow(t, k) && Misfiled(sources, k))
    {
      HandleAt(t, user, sources, now, k);
    }
  }

  /** For example: a post comment with id 5 is mirrored, is then removed from its table altogether, and a site
      review comment has the same id. The next run mirrors the new one and does not see the old row as an orphan. */
  lemma MisfiledRowSurvives()
    ensures var item := Item(5, 10, 10, None);
            var first, second := CommentSources([item], [], []), CommentSources([], [item], []);
            var t := Handle(Handle(map[], 1, first, 20), 1, second, 30);
            WellFormed(first) && WellFormed(second)
            && LiveRow(t, Key(1, PostComment, 5)) && !LiveItem(second, Key(1, PostComment, 5))
            && LiveRow(t, Key(1, SiteReviewComment, 5))
  {
    var item := Item(5, 10, 10, None);
    var first, second := CommentSources([item], [], []), CommentSources([], [item], []);
    var before := Handle(map[], 1, first, 20);
    var k, other := Key(1, PostComment, 5), Key(1, SiteReviewComment, 5);
    assert WellFormed(first) && WellFormed(second);
    hide Handle, WellFormed, Mirrored;
    HandleAt(map[], 1, first, 20, k);
    HandleAt(map[], 1, first, 20, other);
    HandleAt(before, 1, second, 30, k);
    HandleAt(before, 1, second, 30, other);
    MirroredHere(first, 0, item, 1);
    MirroredHere(second, 1, item, 1);
    FoundAlone(item);
    assert second[0] == Source(PostComment, []) && first[1] == Source(SiteReviewComment, []);
    MirroredOnly(second, k);
    MirroredOnly(first, other);
    assert FindItem(second[1].items, 5).Some?;
  }

  lemma FoundAlone(item: Item)
    ensures FindItem([item], item.id) == Some(item)
  {}

  /** Three comment sources mirror a key by the one source of its kind. */
  lemma MirroredOnly(s: seq<Source>, k: Key)
    requires |s| == 3 && WellFormed(s) && exists i :: 0 <= i < 3 && s[i].kind == k.kind && s[i].items == []
    ensures Mirrored(s, k) == None
  {
    hide WellFormed;
    KindsApart(s);
    assert s[..2][..1] == s[..1] && s[..1][..0] == [];
    assert Mirrored(s[..1], k) == if s[0].kind == k.kind then FindItem(s[0].items, k.item) else None;
  }

  lemma KindsApart(s: seq<Source>)
    requires |s| == 3 && WellFormed(s)
    ensures s[0].kind != s[1].kind && s[0].kind != s[2].kind && s[1].kind != s[2].kind
  {}

  // ----- Running again -----

  /** A row that agrees with its item on existence and deletion: syncing it again creates and deletes nothing. */
  predicate StatusAgrees(t: Table, user: int, kind: Kind, items: seq<Item>) {
    forall i :: 0 <= i < |items| ==>
      var k := Key(user, kind, items[i].id);
      k in t && (t[k].deletedAt.Some? <==> items[i].deletedAt.Some?)
  }

  lemma {:induction false} NothingNew(t: Table, user: int, kind: Kind, items: seq<Item>)
    requires StatusAgrees(t, user, kind, items)
    ensures CountAll(t, user, kind, items) == Counts(0, |items|, 0)
    decreases |items|
  {
    if items != [] {
      NothingNew(t, user, kind, items[..|items| - 1]);
    }
  }

  lemma {:induction false} MirroredHere(sources: seq<Source>, i: nat, item: Item, user: int)
    requires WellFormed(sources) && i < |sources| && item in sources[i].items
    ensures Mirrored(sources, Key(user, sources[i].kind, item.id)) == Some(item)
    decreases |sources|
  {
    var k, n := Key(user, sources[i].kind, item.id), |sources| - 1;
    if i == n {
      DistinctFind(sources[n].items, item);
    } else {
      MirroredHere(sources[..n], i, item, user);
    }
  }

  lemma {:induction false} DistinctFind(items: seq<Item>, item: Item)
    requires DistinctIds(items) && item in items
    ensures FindItem(items, item.id) == Some(item)
    decreases |items|
  {
    var n := |items| - 1;
    var i :| 0 <= i <= n && items[i] == item;
    if i < n {
      assert items[..n][i] == item;
      DistinctFind(items[..n], item);
    }
  }

  lemma SourceAgrees(t: Table, user: int, sources: seq<Source>, now: int, i: nat)
    requires WellFormed(sources) && i < |sources|
    ensures StatusAgrees(Handle(t, user, sources, now), user, sources[i].kind, sources[i].items)
  {
    var after := Handle(t, user, sources, now);
    forall j | 0 <= j < |sources[i].items|
      ensures var item := sources[i].items[j];
              var k := Key(user, sources[i].kind, item.id);
              k in after && (after[k].deletedAt.Some? <==> item.deletedAt.Some?)
    {
      var item := sources[i].items[j];
      MirroredHere(sources, i, item, user);
      RunReconciles(t, user, sources, now, Key(user, sources[i].kind, item.id));
    }
  }

  predicate StampedLike(r: Row, item: Item) {
    r == Row(item.createdAt, item.updatedAt, item.deletedAt)
  }

  /** The row is to be soft-deleted at the very instant the item was last written, and another of its dates is
      not the item's: then the next run's `save` finds the update date unchanged and sets it once more. */
  predicate StampedTwice(r: Option<Row>, item: Item, now: int) {
    CountsAsDelete(r, item) && item.updatedAt == now
    && (item.deletedAt != Some(now) || (r.Some? && r.value.createdAt != item.createdAt))
  }

  /** Timestamps settle: a row that agrees stays as it is; a second, later run suffices exactly when the first one
      did not stamp the row twice; three runs always do. */
  lemma TimestampsSettle(r: Option<Row>, item: Item, n1: int, n2: int, n3: int)
    requires n1 < n2
    ensures var r1 := SyncRow(r, item, n1);
            var r2 := SyncRow(Some(r1), item, n2);
            var r3 := SyncRow(Some(r2), item, n3);
            (StampedLike(r2, item) <==> !StampedTwice(r, item, n1)) && StampedLike(r3, item)
            && (StampedLike(r1, item) ==> r2 == r1)
  {}

  /** For example, from the empty table, a deleted post last written at the instant of the first run: after the
      second run its row still has another update date. */
  lemma TwoRunsMayNotSettle()
    ensures var item := Item(1, 10, 20, Some(15));
            var sources, k := [Source(Post, [item])], Key(7, Post, 1);
            var t2 := Handle(Handle(map[], 7, sources, 20), 7, sources, 30);
            WellFormed(sources) && k in t2 && t2[k].updatedAt == 30 && !StampedLike(t2[k], item)
  {
    var item := Item(1, 10, 20, Some(15));
    var sources, k := [Source(Post, [item])], Key(7, Post, 1);
    assert WellFormed(sources);
    MirroredHere(sources, 0, item, 7);
    hide Handle, Mirrored, WellFormed;
    HandleAt(map[], 7, sources, 20, k);
    HandleAt(Handle(map[], 7, sources, 20), 7, sources, 30, k);
  }

  /** What repeated runs over unchanged sources do to one key. */
  lemma KeySettles(t: Table, user: int, sources: seq<Source>, n1: int, n2: int, n3: int, n4: int, k: Key)
    requires WellFormed(sources) && n1 < n2
    ensures var t1 := Handle(t, user, sources, n1);
            var t2 := Handle(t1, user, sources, n2);
            var t3 := Handle(t2, user, sources, n3);
            var item := Mirrored(sources, k);
            Get(Handle(t3, user, sources, n4), k) == Get(t3, k)
            && (Get(t3, k) == Get(t2, k) <==>
                  (k.user == user && item.Some? ==> !StampedTwice(Get(t, k), item.value, n1)))
            && (k.user == user && item.Some? ==>
                  Get(t3, k) == Some(Row(item.value.createdAt, item.value.updatedAt, item.value.deletedAt)))
  {
    hide Handle, SyncRow, StampedTwice, WellFormed, Mirrored, Orphan;
    var t1 := Handle(t, user, sources, n1);
    var t2 := Handle(t1, user, sources, n2);
    var t3 := Handle(t2, user, sources, n3);
    HandleAt(t, user, sources, n1, k);
    HandleAt(t1, user, sources, n2, k);
    HandleAt(t2, user, sources, n3, k);
    HandleAt(t3, user, sources, n4, k);
    if k.user == user && Mirrored(sources, k).Some? {
      var item := Mirrored(sources, k).value;
      TimestampsSettle(Get(t, k), item, n1, n2, n3);
      AgreedRowStays(item, n3);
      AgreedRowStays(item, n4);
    }
  }

  lemma AgreedRowStays(item: Item, now: int)
    ensures var r := Row(item.createdAt, item.updatedAt, item.deletedAt); SyncRow(Some(r), item, now) == r
  {}

  /** Repeated runs over unchanged sources reach a fixed point: after three runs every item's row has exactly the
      item's dates and another run changes nothing at all; after two, if and only if no row was stamped twice. */
  lemma RunsSettle(t: Table, user: int, sources: seq<Source>, n1: int, n2: int, n3: int, n4: int)
    requires WellFormed(sources) && n1 < n2
    ensures var t2 := Handle(Handle(t, user, sources, n1), user, sources, n2);
            var t3 := Handle(t2, user, sources, n3);
            Handle(t3, user, sources, n4) == t3
            && (forall k: Key :: k.user == user && Mirrored(sources, k).Some? ==>
                  var item := Mirrored(sources, k).value;
                  Get(t3, k) == Some(Row(item.createdAt, item.updatedAt, item.deletedAt)))
            && (t3 == t2 <==>
                  forall k: Key :: k.user == user && Mirrored(sources, k).Some? ==>
                    !StampedTwice(Get(t, k), Mirrored(sources, k).value, n1))
  {
    hide *;
    var t2 := Handle(Handle(t, user, sources, n1), user, sources, n2);
    var t3 := Handle(t2, user, sources, n3);
    forall k: Key
      ensures Get(Handle(t3, user, sources, n4), k) == Get(t3, k)
      ensures Get(t3, k) == Get(t2, k) <==>
                (k.user == user && Mirrored(sources, k).Some? ==>
                   !StampedTwice(Get(t, k), Mirrored(sources, k).value, n1))
      ensures k.user == user && Mirrored(sources, k).Some? ==>
                var item := Mirrored(sources, k).value;
                Get(t3, k) == Some(Row(item.createdAt, item.updatedAt, item.deletedAt))
    {
      KeySettles(t, user, sources, n1, n2, n3, n4, k);
    }
    SameEverywhere(Handle(t3, user, sources, n4), t3);
    if forall k: Key :: k.user == user && Mirrored(sources, k).Some? ==>
        !StampedTwice(Get(t, k), Mirrored(sources, k).value, n1) {
      SameEverywhere(t3, t2);
    }
  }

  lemma SameEverywhere(a: Table, b: Table)
    requires forall k :: Get(a, k) == Get(b, k)
    ensures a == b
  {
    forall k ensures k in a <==> k in b {
      assert Get(a, k) == Get(b, k);
    }
    forall k | k in a ensures a[k] == b[k] {
      assert Get(a, k) == Get(b, k);
    }
  }

  // ----- The commands -----

  function Keys(t: Table, user: int): set<Key> {
    set k | k in t && k.user == user
  }

  function LiveOrphans(t: Table, user: int, sources: seq<Source>): set<Key> {
    set k | k in t && Orphan(sources, user, k) && t[k].deletedAt == None
  }

  /** The table when the orphan pass has dealt with all rows but those in `todo`. */
  function PartlyCleaned(t: Table, user: int, sources: seq<Source>, now: int, todo: set<Key>): Table {
    map k | k in t :: if k !in todo && k in LiveOrphans(t, user, sources) then SoftDeleted(t[k], now) else t[k]
  }

  lemma CleanOne(t: Table, user: int, sources: seq<Source>, now: int, todo: set<Key>, k: Key)
    requires k in todo && todo <= t.Keys
    ensures var table := PartlyCleaned(t, user, sources, now, todo);
            table[k] == t[k]
            && PartlyCleaned(t, user, sources, now, todo - {k})
               == if k in LiveOrphans(t, user, sources) then table[k := SoftDeleted(table[k], now)] else table
    ensures var orphans := LiveOrphans(t, user, sources);
            |orphans * (todo - {k})| == |orphans * todo| - if k in orphans then 1 else 0
  {
    var orphans := LiveOrphans(t, user, sources);
    if k in orphans {
      assert orphans * todo == orphans * (todo - {k}) + {k};
    } else {
      assert orphans * todo == orphans * (todo - {k});
    }
  }

  /** Every item agrees with its row about deletion, and no orphan is live. */
  predicate Reconciled(t: Table, user: int, sources: seq<Source>) {
    (forall i :: 0 <= i < |sources| ==> StatusAgrees(t, user, sources[i].kind, sources[i].items))
    && LiveOrphans(t, user, sources) == {}
  }

  lemma RunLeavesReconciled(t: Table, user: int, sources: seq<Source>, now: int)
    requires WellFormed(sources)
    ensures Reconciled(Handle(t, user, sources, now), user, sources)
  {
    var after := Handle(t, user, sources, now);
    forall i | 0 <= i < |sources| ensures StatusAgrees(after, user, sources[i].kind, sources[i].items) {
      SourceAgrees(t, user, sources, now, i);
    }
    forall k | k in after && Orphan(sources, user, k) ensures after[k].deletedAt.Some? {
      RunReconciles(t, user, sources, now, k);
    }
  }

  function Plus(a: Counts, b: Counts): Counts {
    Counts(a.created + b.created, a.updated + b.updated, a.softDeleted + b.softDeleted)
  }

  /** What a whole run reports: the counts of all sources, and one soft delete for each live orphan, all judged
      by the table before the run. */
  function SourceCounts(t: Table, user: int, sources: seq<Source>): Counts {
    if sources == [] then Counts(0, 0, 0)
    else
      var s := sources[|sources| - 1];
      Plus(SourceCounts(t, user, sources[..|sources| - 1]), CountAll(t, user, s.kind, s.items))
  }

  function RunCounts(t: Table, user: int, sources: seq<Source>): Counts {
    Plus(SourceCounts(t, user, sources), Counts(0, 0, |LiveOrphans(t, user, sources)|))
  }

  function Size(sources: seq<Source>): nat {
    if sources == [] then 0 else Size(sources[..|sources| - 1]) + |sources[|sources| - 1].items|
  }

  /** Syncing one kind does not change what another kind finds. */
  lemma {:induction false} KindsDoNotInterfere(t: Table, user: int, a: Source, kind: Kind, items: seq<Item>, now: int)
    requires DistinctIds(a.items) && a.kind != kind
    ensures CountAll(SyncAll(t, user, a.kind, a.items, now), user, kind, items) == CountAll(t, user, kind, items)
    decreases |items|
  {
    if items != [] {
      var n := |items| - 1;
      KindsDoNotInterfere(t, user, a, kind, items[..n], now);
      SyncAllAt(t, user, a.kind, a.items, now, Key(user, kind, items[n].id));
    }
  }

  /** The item passes neither make nor save an orphan. */
  lemma OrphansUnchanged(t: Table, user: int, sources: seq<Source>, now: int)
    requires WellFormed(sources)
    ensures LiveOrphans(SyncSources(t, user, sources, now), user, sources) == LiveOrphans(t, user, sources)
  {
    var after := SyncSources(t, user, sources, now);
    forall k: Key | Orphan(sources, user, k) ensures Get(after, k) == Get(t, k) {
      SyncSourcesAt(t, user, sources, now, k);
      if Mirrored(sources, k).Some? {
        MirroredIsKnown(sources, k);
      }
    }
  }

  /** Every source item is either created or updated. */
  lemma {:induction false} CreatedPlusUpdated(t: Table, user: int, sources: seq<Source>)
    ensures var c := SourceCounts(t, user, sources); c.created + c.updated == Size(sources)
  {
    if sources != [] {
      var s := sources[|sources| - 1];
      CreatedPlusUpdated(t, user, sources[..|sources| - 1]);
      CountsAddUp(t, user, s.kind, s.items);
    }
  }

  lemma {:induction false} ReconciledCounts(t: Table, user: int, sources: seq<Source>)
    requires forall i :: 0 <= i < |sources| ==> StatusAgrees(t, user, sources[i].kind, sources[i].items)
    ensures SourceCounts(t, user, sources) == Counts(0, Size(sources), 0)
    decreases |sources|
  {
    if sources != [] {
      var n := |sources| - 1;
      forall i | 0 <= i < n ensures StatusAgrees(t, user, sources[..n][i].kind, sources[..n][i].items) {
        assert sources[..n][i] == sources[i];
      }
      ReconciledCounts(t, user, sources[..n]);
      NothingNew(t, user, sources[n].kind, sources[n].items);
    }
  }

  /** A second run over unchanged sources creates nothing and soft-deletes nothing. */
  lemma SecondRunIsQuiet(t: Table, user: int, sources: seq<Source>, now: int)
    requires WellFormed(sources)
    ensures RunCounts(Handle(t, user, sources, now), user, sources) == Counts(0, Size(sources), 0)
  {
    hide Handle, StatusAgrees, SourceCounts, LiveOrphans, WellFormed, Size;
    RunLeavesReconciled(t, user, sources, now);
    ReconciledCounts(Handle(t, user, sources, now), user, sources);
  }

  /** The rows that are deleted in `after` and were not, or did not exist, in t. */
  function NewlyDeleted(t: Table, after: Table): set<Key> {
    set k | k in after && after[k].deletedAt.Some? && (k !in t || t[k].deletedAt == None)
  }

  lemma RowDeletedLikeItem(r: Option<Row>, item: Item, now: int)
    ensures SyncRow(r, item, now).deletedAt.Some? <==> item.deletedAt.Some?
  {}

  lemma NewlyDeletedGrows(t: Table, x: Table, k: Key, row: Row)
    requires Get(x, k) == Get(t, k)
    ensures k !in NewlyDeleted(t, x)
    ensures NewlyDeleted(t, x[k := row])
            == NewlyDeleted(t, x) + if row.deletedAt.Some? && (k !in t || t[k].deletedAt == None) then {k} else {}
  {
    var more := if row.deletedAt.Some? && (k !in t || t[k].deletedAt == None) then {k} else {};
    forall key ensures key in NewlyDeleted(t, x[k := row]) <==> key in NewlyDeleted(t, x) + more {
      if key != k {
        assert key in x[k := row] <==> key in x;
      }
    }
  }

  lemma OneMoreRow(t: Table, x: Table, k: Key, item: Item, now: int)
    requires Get(x, k) == Get(t, k)
    ensures var after := x[k := SyncRow(Get(x, k), item, now)];
            |after.Keys| == |x.Keys| + (if Get(t, k) == None then 1 else 0)
            && |NewlyDeleted(t, after)| == |NewlyDeleted(t, x)| + if CountsAsDelete(Get(t, k), item) then 1 else 0
  {
    var row := SyncRow(Get(x, k), item, now);
    RowDeletedLikeItem(Get(x, k), item, now);
    hide SyncRow, NewlyDeleted;
    assert x[k := row].Keys == x.Keys + {k};
    NewlyDeletedGrows(t, x, k, row);
  }

  /** The counts of a source, judged by table t, are what its pass does to a table that agrees with t on it. */
  lemma {:induction false} PassCounts(t: Table, x: Table, user: int, kind: Kind, items: seq<Item>, now: int)
    requires DistinctIds(items) && forall k: Key :: k.user == user && k.kind == kind ==> Get(x, k) == Get(t, k)
    ensures var c, after := CountAll(t, user, kind, items), SyncAll(x, user, kind, items, now);
            |after.Keys| == |x.Keys| + c.created && |NewlyDeleted(t, after)| == |NewlyDeleted(t, x)| + c.softDeleted
    decreases |items|
  {
    if items != [] {
      var n := |items| - 1;
      var k := Key(user, kind, items[n].id);
      PassCounts(t, x, user, kind, items[..n], now);
      SyncAllAt(x, user, kind, items[..n], now, k);
      NotFound(items[..n], items[n].id);
      OneMoreRow(t, SyncAll(x, user, kind, items[..n], now), k, items[n], now);
    }
  }

  lemma {:induction false} SourcePassCounts(t: Table, user: int, sources: seq<Source>, now: int)
    requires WellFormed(sources)
    ensures var c, after := SourceCounts(t, user, sources), SyncSources(t, user, sources, now);
            |after.Keys| == |t.Keys| + c.created && |NewlyDeleted(t, after)| == c.softDeleted
    decreases |sources|
  {
    hide SyncAll, CountAll, NewlyDeleted;
    if sources == [] {
      NothingDeleted(t);
    } else {
      var n := |sources| - 1;
      var s, x := sources[n], SyncSources(t, user, sources[..n], now);
      SourcePassCounts(t, user, sources[..n], now);
      forall k: Key | k.user == user && k.kind == s.kind ensures Get(x, k) == Get(t, k) {
        SyncSourcesAt(t, user, sources[..n], now, k);
        NotMirroredElsewhere(sources[..n], k);
      }
      PassCounts(t, x, user, s.kind, s.items, now);
    }
  }

  lemma NothingDeleted(t: Table)
    ensures NewlyDeleted(t, t) == {}
  {}

  lemma OrphanPassCounts(t: Table, x: Table, user: int, sources: seq<Source>, now: int)
    requires forall k :: Orphan(sources, user, k) ==> Get(x, k) == Get(t, k)
    ensures var after := DeleteOrphans(x, user, sources, now);
            after.Keys == x.Keys
            && |NewlyDeleted(t, after)| == |NewlyDeleted(t, x)| + |LiveOrphans(t, user, sources)|
  {
    var after, orphans := DeleteOrphans(x, user, sources, now), LiveOrphans(t, user, sources);
    forall k | k in orphans ensures k in x && Get(x, k) == Get(t, k) {
      assert Orphan(sources, user, k);
    }
    forall k ensures k in NewlyDeleted(t, after) <==> k in NewlyDeleted(t, x) + orphans {
      if Orphan(sources, user, k) {
        assert Get(x, k) == Get(t, k);
      }
    }
    assert NewlyDeleted(t, after) == NewlyDeleted(t, x) + orphans;
    assert NewlyDeleted(t, x) !! orphans;
  }

  /** A run reports what happened: as created, by how many rows the table has grown; as updated, the other items of
      all sources; as soft-deleted, how many rows are deleted now that were not before. */
  lemma CountsAreWhatHappened(t: Table, user: int, sources: seq<Source>, now: int)
    requires WellFormed(sources)
    ensures var c, after := RunCounts(t, user, sources), Handle(t, user, sources, now);
            c.created == |after.Keys| - |t.Keys| && c.created + c.updated == Size(sources)
            && c.softDeleted == |NewlyDeleted(t, after)|
  {
    hide SyncSources, SourceCounts, NewlyDeleted, LiveOrphans, DeleteOrphans, Orphan, Size, WellFormed;
    var x := SyncSources(t, user, sources, now);
    CreatedPlusUpdated(t, user, sources);
    SourcePassCounts(t, user, sources, now);
    forall k | Orphan(sources, user, k) ensures Get(x, k) == Get(t, k) {
      SyncSourcesAt(t, user, sources, now, k);
      OrphanNotMirrored(sources, user, k);
    }
    OrphanPassCounts(t, x, user, sources, now);
  }

  lemma OrphanNotMirrored(sources: seq<Source>, user: int, k: Key)
    requires Orphan(sources, user, k)
    ensures Mirrored(sources, k) == None
  {
    if Mirrored(sources, k).Some? {
      MirroredIsKnown(sources, k);
    }
  }

  class SyncCommand {
    var table: Table

    constructor (table: Table)
      ensures this.table == table
    {
      this.table := table;
    }

    /** `syncComments`, and the first loop of the posts command: one source, item by item. */
    method SyncItems(items: seq<Item>, kind: Kind, user: int, now: int) returns (c: Counts)
      requires DistinctIds(items)
      modifies this
      ensures table == SyncAll(old(table), user, kind, items, now)
      ensures c == CountAll(old(table), user, kind, items)
    {
      var created, updated, softDeleted := 0, 0, 0;
      assert items[..0] == [];
      for i := 0 to |items|
        invariant table == SyncAll(old(table), user, kind, items[..i], now)
        invariant Counts(created, updated, softDeleted) == CountAll(old(table), user, kind, items[..i])
      {
        var item := items[i];
        var key := Key(user, kind, item.id);
        assert items[..i + 1][..i] == items[..i];
        SyncAllAt(old(table), user, kind, items[..i], now, key);
        NotFound(items[..i], item.id);
        if key in table {
          var existing := table[key];
          var stamped := existing.(createdAt := item.createdAt, updatedAt := item.updatedAt);
          if item.deletedAt.Some? {
            if existing.deletedAt == None {
              table := table[key := SoftDeleted(existing, now)];
              softDeleted := softDeleted + 1;
            } else {
              table := table[key := Saved(existing, stamped.(deletedAt := item.deletedAt), now)];
            }
          } else if existing.deletedAt.Some? {
            table := table[key := Restored(existing, now)];
            var restored := table[key];
            restored := restored.(createdAt := item.createdAt, updatedAt := item.updatedAt);
            table := table[key := Saved(table[key], restored, now)];
          } else {
            table := table[key := Saved(existing, stamped, now)];
          }
          updated := updated + 1;
        } else {
          table := table[key := Row(item.createdAt, item.updatedAt, item.deletedAt)];
          created := created + 1;
          if item.deletedAt.Some? {
            table := table[key := SoftDeleted(table[key], now)];
            softDeleted := softDeleted + 1;
          }
        }
      }
      assert items[..|items|] == items;
      c := Counts(created, updated, softDeleted);
    }

    /** The orphan pass. */
    method CleanUpOrphans(sources: seq<Source>, user: int, now: int) returns (softDeleted: nat)
      modifies this
      ensures table == DeleteOrphans(old(table), user, sources, now)
      ensures softDeleted == |LiveOrphans(old(table), user, sources)|
    {
      softDeleted := 0;
      ghost var t := table;
      ghost var orphans := LiveOrphans(t, user, sources);
      var todo := Keys(table, user);
      assert orphans * todo == orphans;
      assert PartlyCleaned(t, user, sources, now, todo) == t;
      while todo != {}
        invariant todo <= t.Keys && forall k :: k in todo ==> k.user == user
        invariant table == PartlyCleaned(t, user, sources, now, todo)
        invariant softDeleted + |orphans * todo| == |orphans|
        decreases todo
      {
        var k :| k in todo;
        CleanOne(t, user, sources, now, todo, k);
        if Orphan(sources, user, k) && table[k].deletedAt == None {
          table := table[k := SoftDeleted(table[k], now)];
          softDeleted := softDeleted + 1;
        }
        todo := todo - {k};
      }
    }

    /** `SyncUserPostsCommand.handle` for a given user. */
    method HandlePosts(posts: seq<Item>, user: int, now: int) returns (c: Counts)
      requires DistinctIds(posts)
      modifies this
      ensures table == Handle(old(table), user, [Source(Post, posts)], now)
      ensures c == RunCounts(old(table), user, [Source(Post, posts)])
    {
      hide SyncAll, CountAll, LiveOrphans, DeleteOrphans, SyncSources, SourceCounts, Orphan;
      var sources := [Source(Post, posts)];
      OrphansUnchanged(table, user, sources, now);
      OneSource(table, user, sources, now);
      c := SyncItems(posts, Post, user, now);
      var orphans := CleanUpOrphans(sources, user, now);
      c := c.(softDeleted := c.softDeleted + orphans);
    }

    /** `SyncUserCommentsCommand.handle` for a given user. */
    method HandleComments(post: seq<Item>, siteReview: seq<Item>, scamReport: seq<Item>, user: int, now: int)
        returns (c: Counts)
      requires DistinctIds(post) && DistinctIds(siteReview) && DistinctIds(scamReport)
      modifies this
      ensures table == Handle(old(table), user, CommentSources(post, siteReview, scamReport), now)
      ensures c == RunCounts(old(table), user, CommentSources(post, siteReview, scamReport))
    {
      hide SyncAll, CountAll, LiveOrphans, DeleteOrphans, SyncSources, SourceCounts, Orphan;
      var sources := CommentSources(post, siteReview, scamReport);
      ThreeSources(table, user, sources, now);
      OrphansUnchanged(table, user, sources, now);
      var c1 := SyncItems(post, PostComment, user, now);
      var c2 := SyncItems(siteReview, SiteReviewComment, user, now);
      var c3 := SyncItems(scamReport, ScamReportComment, user, now);
      var orphans := CleanUpOrphans(sources, user, now);
      c := Counts(c1.created + c2.created + c3.created, c1.updated + c2.updated + c3.updated,
                  c1.softDeleted + c2.softDeleted + c3.softDeleted + orphans);
    }
  }

  lemma OneSource(t: Table, user: int, s: seq<Source>, now: int)
    requires |s| == 1
    ensures SyncSources(t, user, s, now) == SyncAll(t, user, s[0].kind, s[0].items, now)
    ensures SourceCounts(t, user, s) == CountAll(t, user, s[0].kind, s[0].items)
  {
    hide SyncAll, CountAll;
    assert s[..0] == [];
  }

  /** Three sources one after the other. */
  lemma ThreeSources(t: Table, user: int, s: seq<Source>, now: int)
    requires |s| == 3 && WellFormed(s)
    ensures var t1 := SyncAll(t, user, s[0].kind, s[0].items, now);
            var t2 := SyncAll(t1, user, s[1].kind, s[1].items, now);
            SyncSources(t, user, s, now) == SyncAll(t2, user, s[2].kind, s[2].items, now)
            && SourceCounts(t, user, s)
               == Plus(Plus(CountAll(t, user, s[0].kind, s[0].items), CountAll(t1, user, s[1].kind, s[1].items)),
                       CountAll(t2, user, s[2].kind, s[2].items))
  {
    hide SyncAll, CountAll, DistinctIds;
    var t1 := SyncAll(t, user, s[0].kind, s[0].items, now);
    assert s[..2][..1] == s[..1];
    OneSource(t, user, s[..1], now);
    assert SyncSources(t, user, s[..2], now) == SyncAll(t1, user, s[1].kind, s[1].items, now);
    KindsDoNotInterfere(t, user, s[0], s[1].kind, s[1].items, now);
    KindsDoNotInterfere(t, user, s[0], s[2].kind, s[2].items, now);
    KindsDoNotInterfere(t1, user, s[1], s[2].kind, s[2].items, now);
  }

  function CommentSources(post: seq<Item>, siteReview: seq<Item>, scamReport: seq<Item>): seq<Source> {
    [Source(PostComment, post), Source(SiteReviewComment, siteReview), Source(ScamReportComment, scamReport)]
  }
}
