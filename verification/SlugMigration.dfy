/** The slug back-fill of src/migrations/1767800000000-add-slug-to-sites.ts: the probe loops that make
    a slug unique and the two phases of `up`. */
module SlugMigration {
  import opened Common
  import opened Decimal
  import opened SlugText

  function Suffix(k: nat): string {
    "-" + Text(k)
  }

  /** `replace(/-$/, '')` */
  function DropEndHyphen(s: string): string {
    if s != "" && s[|s| - 1] == '-' then s[..|s| - 1] else s
  }

  /** The slug probed in round k: the base itself, then the base cut to make room for `-1`, `-2`, ...
      `substring` reads a negative end as zero. */
  function Candidate(base: string, k: nat): string {
    if k == 0 then base
    else DropEndHyphen(Truncate(base, Max(0, 50 - |Suffix(k)|)) + Suffix(k))
  }

  lemma CandidateText(base: string, k: nat)
    requires k > 0
    ensures Candidate(base, k) == Truncate(base, Max(0, 50 - |Suffix(k)|)) + "-" + Text(k)
  {
    var t := Text(k);
    var s := Truncate(base, Max(0, 50 - |Suffix(k)|)) + Suffix(k);
    assert t[|t| - 1] in t && s[|s| - 1] == t[|t| - 1];
    assert s == Truncate(base, Max(0, 50 - |Suffix(k)|)) + "-" + t;
  }

  /** The text after the last hyphen is the counter, so numbered candidates never repeat. (The base
      itself may well equal one of them.) */
  lemma CandidatesDiffer(base: string, a: nat, b: nat)
    requires 0 < a && 0 < b && Candidate(base, a) == Candidate(base, b)
    ensures a == b
  {
    CandidateText(base, a);
    CandidateText(base, b);
    TailAfterHyphen(Truncate(base, Max(0, 50 - |Suffix(a)|)), Text(a),
                    Truncate(base, Max(0, 50 - |Suffix(b)|)), Text(b));
    TextIsInjective(a, b);
  }

  lemma NoHyphenInTail(p: string, s: string, i: int)
    requires '-' !in s && |p| < i < |p + "-" + s|
    ensures (p + "-" + s)[i] != '-'
  {
    assert (p + "-" + s)[i] == s[i - |p| - 1];
  }

  lemma TailAfterHyphen(p: string, s: string, q: string, t: string)
    requires p + "-" + s == q + "-" + t
    requires '-' !in s && '-' !in t
    ensures s == t
  {
    var w := p + "-" + s;
    assert w[|p|] == '-' && w[|p| + 1..] == s;
    assert (q + "-" + t)[|q|] == '-' && w[|q| + 1..] == t;
    if |p| < |q| {
      NoHyphenInTail(p, s, |q|);
    } else if |q| < |p| {
      NoHyphenInTail(q, t, |p|);
    }
  }

  lemma {:induction false} DistinctCandidates(base: string, n: nat, taken: set<string>)
    requires forall j :: 0 < j <= n ==> Candidate(base, j) in taken
    ensures n <= |taken|
    decreases n
  {
    if n > 0 {
      var c := Candidate(base, n);
      forall j | 0 < j < n ensures Candidate(base, j) in taken - {c} {
        if Candidate(base, j) == c {
          CandidatesDiffer(base, j, n);
        }
      }
      DistinctCandidates(base, n - 1, taken - {c});
    }
  }

  /** The slug a probe loop must return: the first candidate nobody holds. */
  ghost predicate IsFirstFree(base: string, taken: set<string>, slug: string) {
    exists k: nat :: IsFirstFreeAt(base, taken, slug, k)
  }

  ghost predicate IsFirstFreeAt(base: string, taken: set<string>, slug: string, k: nat) {
    slug == Candidate(base, k) && slug !in taken && forall j: nat :: j < k ==> Candidate(base, j) in taken
  }

  lemma FirstFreeIsUnique(base: string, taken: set<string>, a: string, b: string)
    requires IsFirstFree(base, taken, a) && IsFirstFree(base, taken, b)
    ensures a == b
  {
    var i: nat :| IsFirstFreeAt(base, taken, a, i);
    var j: nat :| IsFirstFreeAt(base, taken, b, j);
    assert !(i < j) && !(j < i);
  }

  /** The first free candidate of a valid base passes the validator, and fits the column unless more slugs are
      taken than 49 digits can count. */
  lemma FirstFreeFits(base: string, taken: set<string>, slug: string)
    requires IsFirstFree(base, taken, slug) && IsSlug(base) && |base| <= 50
    ensures IsSlug(slug)
    ensures |taken| + 1 < Pow10(49) ==> |slug| <= 50
  {
    var k: nat :| IsFirstFreeAt(base, taken, slug, k);
    if k > 0 {
      DistinctCandidates(base, k - 1, taken);
      CandidateText(base, k);
      var t := Text(k);
      forall i | 0 <= i < |slug| ensures IsSlugChar(slug[i]) {
        var p := |slug| - |t|;
        assert i >= p ==> slug[i] == t[i - p] && t[i - p] in t;
        assert i < p - 1 ==> slug[i] == base[i];
      }
      if |taken| + 1 < Pow10(49) {
        TextLength(k, 49);
      }
    }
  }

  /** The outcome of probing for each base in turn, every slug handed out being taken for the rest. */
  ghost predicate Assigned(bases: seq<string>, taken: set<string>, slugs: seq<string>) {
    |slugs| == |bases|
    && forall j :: 0 <= j < |bases| ==> IsFirstFree(bases[j], taken + Elems(slugs[..j]), slugs[j])
  }

  lemma AssignedSlugsAreFresh(bases: seq<string>, taken: set<string>, slugs: seq<string>, j: nat)
    requires Assigned(bases, taken, slugs) && j < |slugs|
    ensures slugs[j] !in taken
    ensures forall i :: 0 <= i < j ==> slugs[i] != slugs[j]
  {
    var k: nat :| IsFirstFreeAt(bases[j], taken + Elems(slugs[..j]), slugs[j], k);
    forall i | 0 <= i < j ensures slugs[i] != slugs[j] {
      assert slugs[..j][i] in slugs[..j];
    }
  }

  lemma {:induction false} ElemsSize(s: seq<string>)
    ensures |Elems(s)| <= |s|
  {
    if s == [] {
      assert Elems(s) == {};
    } else {
      var n := |s| - 1;
      ElemsSize(s[..n]);
      assert Elems(s) == Elems(s[..n]) + {s[n]} by {
        assert forall x :: x in s <==> x in s[..n] || x == s[n] by { assert s == s[..n] + [s[n]]; }
      }
    }
  }

  predicate Bases(bases: seq<string>) {
    forall j :: 0 <= j < |bases| ==> IsSlug(bases[j]) && |bases[j]| <= 50
  }

  lemma AssignedSlugFits(bases: seq<string>, taken: set<string>, slugs: seq<string>, j: nat)
    requires Assigned(bases, taken, slugs) && Bases(bases) && j < |slugs|
    ensures IsSlug(slugs[j])
    ensures |taken| + |slugs| < Pow10(49) ==> |slugs[j]| <= 50
  {
    ElemsSize(slugs[..j]);
    UnionSize(taken, Elems(slugs[..j]));
    FirstFreeFits(bases[j], taken + Elems(slugs[..j]), slugs[j]);
  }

  lemma UnionSize(a: set<string>, b: set<string>)
    ensures |a + b| <= |a| + |b|
  {
    assert a + b == a + (b - a);
    assert |a + (b - a)| == |a| + |b - a|;
    assert |b| == |b - a| + |b * a| by { assert b == (b - a) + (b * a); }
  }

  datatype Site = Site(name: Option<string>, deleted: bool, slug: Option<string>)

  /** `generateSlug(site.name || 'site')`: a null and an empty name both fall back to "site". */
  function BaseSlug(name: Option<string>): string {
    GenerateSlug(if name == None || name.value == "" then "site" else name.value)
  }

  /** `deleted-${baseSlug}`.substring(0, 44) */
  function DeletedBaseSlug(name: Option<string>): string {
    Truncate("deleted-" + BaseSlug(name), 44)
  }

  lemma BasesAreSlugs(name: Option<string>)
    ensures IsSlug(BaseSlug(name)) && |BaseSlug(name)| <= 50
    ensures IsSlug(DeletedBaseSlug(name)) && |DeletedBaseSlug(name)| <= 50
  {
    GeneratedShape(if name == None || name.value == "" then "site" else name.value);
    var b := BaseSlug(name);
    var d := "deleted-" + b;
    forall i | 0 <= i < |d| ensures IsSlugChar(d[i]) {
      if i >= 8 {
        assert d[i] == b[i - 8];
      }
    }
  }

  type Sites = map<int, Site>

  function Select(rows: Sites, deleted: bool): set<int> {
    set id | id in rows && rows[id].deleted == deleted
  }

  /** The slugs a uniqueness query ranges over: those of all rows, or of the active rows. */
  function Held(rows: Sites, activeOnly: bool): set<string> {
    set id | id in rows && rows[id].slug.Some? && (activeOnly ==> !rows[id].deleted) :: rows[id].slug.value
  }

  /** The table after `addColumn`: every slug is null. */
  function WithoutSlugs(rows: Sites): Sites {
    map id | id in rows :: rows[id].(slug := None)
  }

  function Rest(rows: Sites, id: int): Sites {
    rows - {id}
  }

  lemma HeldWithout(rows: Sites, activeOnly: bool, id: int)
    requires id in rows
    ensures |Held(rows, activeOnly)| <= |Held(Rest(rows, id), activeOnly)| + 1
  {
    var own := if rows[id].slug.Some? then {rows[id].slug.value} else {};
    var rest := Held(Rest(rows, id), activeOnly);
    forall x | x in Held(rows, activeOnly) ensures x in rest + own {
      var i :| i in rows && rows[i].slug == Some(x) && (activeOnly ==> !rows[i].deleted);
      assert i == id || (i in Rest(rows, id) && Rest(rows, id)[i] == rows[i]);
    }
    hide Held;
    SubsetSize(Held(rows, activeOnly), rest + own);
    UnionSize(rest, own);
  }

  lemma {:induction false} HeldSize(rows: Sites, activeOnly: bool)
    ensures |Held(rows, activeOnly)| <= |rows|
    decreases |rows|
  {
    if id :| id in rows {
      assert rows.Keys == Rest(rows, id).Keys + {id};
      HeldWithout(rows, activeOnly, id);
      hide Held;
      HeldSize(Rest(rows, id), activeOnly);
    } else {
      assert Held(rows, activeOnly) == {};
    }
  }

  lemma HeldAfter(rows: Sites, id: int, slug: string, activeOnly: bool)
    requires id in rows && rows[id].slug == None && (activeOnly ==> !rows[id].deleted)
    ensures Held(rows[id := rows[id].(slug := Some(slug))], activeOnly) == Held(rows, activeOnly) + {slug}
    ensures Held(Rest(rows, id), activeOnly) == Held(rows, activeOnly)
  {
    var after := rows[id := rows[id].(slug := Some(slug))];
    assert after[id].slug == Some(slug);
    forall x | x in Held(rows, activeOnly)
      ensures x in Held(after, activeOnly) && x in Held(Rest(rows, id), activeOnly)
    {
      var i :| i in rows && rows[i].slug == Some(x) && (activeOnly ==> !rows[i].deleted);
      assert i in after && after[i] == rows[i] && i in Rest(rows, id) && Rest(rows, id)[i] == rows[i];
    }
  }

  lemma AssignedStep(bases: seq<string>, taken: set<string>, slugs: seq<string>, slug: string)
    requires |slugs| < |bases| && Assigned(bases[..|slugs|], taken, slugs)
    requires IsFirstFree(bases[|slugs|], taken + Elems(slugs), slug)
    ensures Assigned(bases[..|slugs| + 1], taken, slugs + [slug])
    ensures Elems(slugs + [slug]) == Elems(slugs) + {slug}
  {
    var more := slugs + [slug];
    assert forall j :: 0 <= j <= |slugs| ==> more[..j] == slugs[..j];
    assert slugs[..|slugs|] == slugs;
  }

  /** The base a row is probed with: by name, and marked for a deleted site. */
  function RowBase(row: Site): string {
    if row.deleted then DeletedBaseSlug(row.name) else BaseSlug(row.name)
  }

  function RowBases(rows: Sites, order: seq<int>): (bases: seq<string>)
    requires forall i :: 0 <= i < |order| ==> order[i] in rows
    ensures |bases| == |order|
    ensures forall i :: 0 <= i < |order| ==> bases[i] == RowBase(rows[order[i]])
  {
    seq(|order|, i requires 0 <= i < |order| && order[i] in rows => RowBase(rows[order[i]]))
  }

  /** `after` differs from `before` in the slugs of the listed rows only, which are now `slugs`. */
  ghost predicate SlugsSet(before: Sites, after: Sites, order: seq<int>, slugs: seq<string>) {
    before.Keys == after.Keys && |slugs| == |order|
    && (forall id :: id in before && id !in order ==> after[id] == before[id])
    && forall i :: 0 <= i < |order| ==>
         order[i] in before && after[order[i]] == before[order[i]].(slug := Some(slugs[i]))
  }

  lemma SlugsSetStep(before: Sites, rows: Sites, order: seq<int>, slugs: seq<string>, slug: string)
    requires Distinct(order) && |slugs| < |order| && order[|slugs|] in before
    requires SlugsSet(before, rows, order[..|slugs|], slugs)
    ensures var id := order[|slugs|];
            id in rows && rows[id] == before[id]
            && SlugsSet(before, rows[id := rows[id].(slug := Some(slug))], order[..|slugs| + 1], slugs + [slug])
  {
    var n := |slugs|;
    assert order[..n + 1] == order[..n] + [order[n]];
    assert order[n] !in order[..n];
  }

  /** Only slugs change. */
  lemma SlugsSetKeeps(before: Sites, after: Sites, order: seq<int>, slugs: seq<string>, id: int)
    requires SlugsSet(before, after, order, slugs) && id in before
    ensures after[id] == before[id].(slug := after[id].slug)
  {
    if id in order {
      var i :| 0 <= i < |order| && order[i] == id;
      assert after[order[i]] == before[order[i]].(slug := Some(slugs[i]));
    }
  }

  /** The invariant of one loop of `up`, after |slugs| of the listed rows. */
  ghost predicate PhaseInvariant(before: Sites, rows: Sites, order: seq<int>, activeOnly: bool, slugs: seq<string>) {
    |slugs| <= |order|
    && (forall i :: 0 <= i < |order| ==>
          order[i] in before && before[order[i]].slug == None && before[order[i]].deleted != activeOnly)
    && SlugsSet(before, rows, order[..|slugs|], slugs)
    && Assigned(RowBases(before, order)[..|slugs|], Held(before, activeOnly), slugs)
    && Held(rows, activeOnly) == Held(before, activeOnly) + Elems(slugs)
  }

  lemma PhaseStep(before: Sites, rows: Sites, order: seq<int>, activeOnly: bool, slugs: seq<string>, slug: string)
    requires PhaseInvariant(before, rows, order, activeOnly, slugs) && |slugs| < |order| && Distinct(order)
    requires var id := order[|slugs|];
             id in rows && IsFirstFree(RowBase(rows[id]), Held(Rest(rows, id), activeOnly), slug)
    ensures var id := order[|slugs|];
            PhaseInvariant(before, rows[id := rows[id].(slug := Some(slug))], order, activeOnly, slugs + [slug])
  {
    var id := order[|slugs|];
    assert id in order;
    SlugsSetStep(before, rows, order, slugs, slug);
    HeldAfter(rows, id, slug, activeOnly);
    AssignedStep(RowBases(before, order), Held(before, activeOnly), slugs, slug);
    assert Held(before, activeOnly) + Elems(slugs) + {slug} == Held(before, activeOnly) + Elems(slugs + [slug]);
  }

  /** The table after both phases: from a table without slugs, the active rows, in the order listed, were
      assigned `a` by probing, and then the deleted rows `d`, with `a` taken. */
  ghost predicate BackFilled(before: Sites, after: Sites, activeOrder: seq<int>, deletedOrder: seq<int>,
                             a: seq<string>, d: seq<string>)
    requires Lists(activeOrder, Select(before, false)) && Lists(deletedOrder, Select(before, true))
  {
    after.Keys == before.Keys
    && Assigned(RowBases(before, activeOrder), {}, a)
    && Assigned(RowBases(before, deletedOrder), Elems(a), d)
    && (forall i :: 0 <= i < |activeOrder| ==>
          after[activeOrder[i]] == before[activeOrder[i]].(slug := Some(a[i])))
    && forall i :: 0 <= i < |deletedOrder| ==>
         after[deletedOrder[i]] == before[deletedOrder[i]].(slug := Some(d[i]))
  }

  lemma HeldByPhase(before: Sites, after: Sites, order: seq<int>, slugs: seq<string>)
    requires forall id :: id in before ==> before[id].slug == None
    requires SlugsSet(before, after, order, slugs)
    ensures Held(after, false) == Elems(slugs)
  {
    forall x | x in Elems(slugs) ensures x in Held(after, false) {
      var i :| 0 <= i < |slugs| && slugs[i] == x;
      var id := order[i];
      assert id in after && after[id].slug.Some? && after[id].slug.value == x;
    }
    forall x | x in Held(after, false) ensures x in Elems(slugs) {
      var id :| id in after && after[id].slug == Some(x);
      assert id in order;
      var i :| 0 <= i < |order| && order[i] == id;
      assert slugs[i] == x;
    }
  }

  /** Where a row's slug comes from: a position of one of the two lists. */
  lemma RowPosition(before: Sites, after: Sites, activeOrder: seq<int>, deletedOrder: seq<int>,
                    a: seq<string>, d: seq<string>, id: int) returns (active: bool, i: nat)
    requires Lists(activeOrder, Select(before, false)) && Lists(deletedOrder, Select(before, true))
    requires BackFilled(before, after, activeOrder, deletedOrder, a, d) && id in after
    ensures active ==> i < |a| && activeOrder[i] == id && after[id].slug == Some(a[i])
    ensures !active ==> i < |d| && deletedOrder[i] == id && after[id].slug == Some(d[i])
  {
    active := !before[id].deleted;
    var order := if active then activeOrder else deletedOrder;
    assert id in Select(before, !active);
    i :| 0 <= i < |order| && order[i] == id;
  }

  lemma BackFilledSlugFits(before: Sites, after: Sites, activeOrder: seq<int>, deletedOrder: seq<int>,
                           a: seq<string>, d: seq<string>, id: int)
    requires Lists(activeOrder, Select(before, false)) && Lists(deletedOrder, Select(before, true))
    requires BackFilled(before, after, activeOrder, deletedOrder, a, d) && id in after
    ensures after[id].slug.Some? && IsSlug(after[id].slug.value)
    ensures |after| < Pow10(49) ==> |after[id].slug.value| <= 50
  {
    var active, i := RowPosition(before, after, activeOrder, deletedOrder, a, d, id);
    RowBasesAreSlugs(before, activeOrder);
    RowBasesAreSlugs(before, deletedOrder);
    ListSizes(before, activeOrder, deletedOrder);
    ElemsSize(a);
    if active {
      AssignedSlugFits(RowBases(before, activeOrder), {}, a, i);
    } else {
      AssignedSlugFits(RowBases(before, deletedOrder), Elems(a), d, i);
    }
  }

  lemma RowBasesAreSlugs(rows: Sites, order: seq<int>)
    requires forall i :: 0 <= i < |order| ==> order[i] in rows
    ensures Bases(RowBases(rows, order))
  {
    forall i | 0 <= i < |order| ensures IsSlug(RowBases(rows, order)[i]) && |RowBases(rows, order)[i]| <= 50 {
      BasesAreSlugs(rows[order[i]].name);
    }
  }

  lemma ListSizes(rows: Sites, activeOrder: seq<int>, deletedOrder: seq<int>)
    requires Lists(activeOrder, Select(rows, false)) && Lists(deletedOrder, Select(rows, true))
    ensures |activeOrder| + |deletedOrder| <= |rows|
  {
    ListSize(activeOrder, Select(rows, false));
    ListSize(deletedOrder, Select(rows, true));
    assert rows.Keys == Select(rows, false) + Select(rows, true);
    assert Select(rows, false) !! Select(rows, true);
  }

  lemma AssignedSlugsDiffer(bases: seq<string>, taken: set<string>, slugs: seq<string>, i: nat, j: nat)
    requires Assigned(bases, taken, slugs) && i < |slugs| && j < |slugs|
    ensures i != j ==> slugs[i] != slugs[j]
  {
    AssignedSlugsAreFresh(bases, taken, slugs, i);
    AssignedSlugsAreFresh(bases, taken, slugs, j);
  }

  lemma PhasesDisjoint(bases: seq<string>, a: seq<string>, d: seq<string>, i: int, j: int)
    requires Assigned(bases, Elems(a), d) && 0 <= i < |a| && 0 <= j < |d|
    ensures a[i] != d[j]
  {
    AssignedSlugsAreFresh(bases, Elems(a), d, j);
    assert a[i] in Elems(a);
  }

  lemma BackFilledSlugsDiffer(before: Sites, after: Sites, activeOrder: seq<int>, deletedOrder: seq<int>,
                              a: seq<string>, d: seq<string>, x: int, y: int)
    requires Lists(activeOrder, Select(before, false)) && Lists(deletedOrder, Select(before, true))
    requires BackFilled(before, after, activeOrder, deletedOrder, a, d)
    requires x in after && y in after
    ensures x != y ==> after[x].slug != after[y].slug
  {
    var p, i := RowPosition(before, after, activeOrder, deletedOrder, a, d, x);
    var q, j := RowPosition(before, after, activeOrder, deletedOrder, a, d, y);
    if p && q {
      AssignedSlugsDiffer(RowBases(before, activeOrder), {}, a, i, j);
    } else if !p && !q {
      AssignedSlugsDiffer(RowBases(before, deletedOrder), Elems(a), d, i, j);
    } else {
      PhasesDisjoint(RowBases(before, deletedOrder), a, d, if p then i else j, if p then j else i);
    }
  }

  /** The migration's promise, for every table: no null slug is left, every slug passes the validator, no
      two rows share one although active rows were checked against active rows only, and below 10^49 rows
      all slugs fit the column. */
  lemma BackFillIsSound(before: Sites, after: Sites, activeOrder: seq<int>, deletedOrder: seq<int>,
                        a: seq<string>, d: seq<string>)
    requires Lists(activeOrder, Select(before, false)) && Lists(deletedOrder, Select(before, true))
    requires BackFilled(before, after, activeOrder, deletedOrder, a, d)
    ensures forall id :: id in after ==> after[id].slug.Some? && IsSlug(after[id].slug.value)
    ensures forall i, j :: i in after && j in after && after[i].slug == after[j].slug ==> i == j
    ensures |after| < Pow10(49) ==> forall id :: id in after ==> |after[id].slug.value| <= 50
  {
    forall id | id in after
      ensures after[id].slug.Some? && IsSlug(after[id].slug.value)
      ensures |after| < Pow10(49) ==> |after[id].slug.value| <= 50
    {
      BackFilledSlugFits(before, after, activeOrder, deletedOrder, a, d, id);
    }
    forall i, j | i in after && j in after ensures i != j ==> after[i].slug != after[j].slug {
      BackFilledSlugsDiffer(before, after, activeOrder, deletedOrder, a, d, i, j);
    }
  }

  /** The base itself, or cut to 50 characters together with a hyphen and the number. */
  function Numbered(base: string, k: nat): string {
    if k == 0 then base
    else
      var room := 49 - |Text(k)|;
      (if room <= 0 then "" else if |base| <= room then base else base[..room]) + "-" + Text(k)
  }

  lemma CandidateIsNumbered(base: string, k: nat)
    ensures Candidate(base, k) == Numbered(base, k)
  {
    if k > 0 {
      CandidateText(base, k);
    }
  }

  /** What a row is probed with: the slug of its name, "site" for a missing one; for a deleted row marked as such and
      cut at 44 characters. */
  function ProbedWith(site: Site): string {
    var name := match site.name case None => "site" case Some(text) => if text == "" then "site" else text;
    var slug := GenerateSlug(name);
    var marked := "deleted-" + slug;
    if !site.deleted then slug else if |marked| <= 44 then marked else marked[..44]
  }

  /** The slugs of a phase are held by its rows, and by the others as far as an earlier one is concerned. */
  lemma EarlierIsHeld(after: Sites, order: seq<int>, slugs: seq<string>, i: nat, x: string)
    requires Distinct(order) && |slugs| == |order| && i < |order| && x in slugs[..i]
    requires forall m :: 0 <= m < |order| ==> order[m] in after && after[order[m]].slug == Some(slugs[m])
    ensures HeldByOther(after, order[i], x)
  {
    var m :| 0 <= m < i && slugs[m] == x;
    var other := order[m];
    assert other in after && other != order[i] && after[other].slug == Some(x);
  }

  lemma ActiveIsHeld(after: Sites, order: seq<int>, slugs: seq<string>, id: int, x: string)
    requires |slugs| == |order| && id !in order && x in slugs
    requires forall m :: 0 <= m < |order| ==> order[m] in after && after[order[m]].slug == Some(slugs[m])
    ensures HeldByOther(after, id, x)
  {
    var m :| 0 <= m < |slugs| && slugs[m] == x;
    var other := order[m];
    assert other in order && other in after && other != id && after[other].slug == Some(x);
  }

  /** The free candidate found is the first numbered one that no other row has. */
  lemma FirstFreeIsNumbered(base: string, taken: set<string>, slug: string, after: Sites, id: int)
    requires IsFirstFree(base, taken, slug) && id in after && after[id].slug == Some(slug)
    requires forall x :: x in taken ==> HeldByOther(after, id, x)
    ensures exists k: nat :: HasNumbered(after, id, base, k)
  {
    var k: nat :| IsFirstFreeAt(base, taken, slug, k);
    CandidateIsNumbered(base, k);
    forall j: nat | j < k ensures HeldByOther(after, id, Numbered(base, j)) {
      CandidateIsNumbered(base, j);
    }
    assert HasNumbered(after, id, base, k);
  }

  ghost predicate HasNumbered(rows: Sites, id: int, base: string, k: nat)
    requires id in rows
  {
    rows[id].slug == Some(Numbered(base, k)) && forall j: nat :: j < k ==> HeldByOther(rows, id, Numbered(base, j))
  }

  /** After the migration each row has the slug it is probed with, or the first numbered one that no other row has. */
  lemma RowSlugIs(before: Sites, after: Sites, activeOrder: seq<int>, deletedOrder: seq<int>,
                  a: seq<string>, d: seq<string>, id: int)
    requires Lists(activeOrder, Select(before, false)) && Lists(deletedOrder, Select(before, true))
    requires BackFilled(before, after, activeOrder, deletedOrder, a, d) && id in after
    ensures id in before && after[id].name == before[id].name && after[id].deleted == before[id].deleted
    ensures exists k: nat :: HasNumbered(after, id, ProbedWith(before[id]), k)
  {
    var active, i := RowPosition(before, after, activeOrder, deletedOrder, a, d, id);
    hide IsFirstFree, HeldByOther, HasNumbered;
    if active {
      forall x | x in Elems(a[..i]) ensures HeldByOther(after, id, x) {
        EarlierIsHeld(after, activeOrder, a, i, x);
      }
      FirstFreeIsNumbered(ProbedWith(before[id]), {} + Elems(a[..i]), a[i], after, id);
    } else {
      forall x | x in Elems(a) + Elems(d[..i]) ensures HeldByOther(after, id, x) {
        if x in d[..i] {
          EarlierIsHeld(after, deletedOrder, d, i, x);
        } else {
          ActiveIsHeld(after, activeOrder, a, id, x);
        }
      }
      FirstFreeIsNumbered(ProbedWith(before[id]), Elems(a) + Elems(d[..i]), d[i], after, id);
    }
  }

  predicate HeldByOther(rows: Sites, id: int, slug: string) {
    exists other :: other in rows && other != id && rows[other].slug == Some(slug)
  }

  lemma TwoPhases(before: Sites, half: Sites, after: Sites, activeOrder: seq<int>, deletedOrder: seq<int>,
                  a: seq<string>, d: seq<string>)
    requires Lists(activeOrder, Select(before, false)) && Lists(deletedOrder, Select(before, true))
    requires SlugsSet(before, half, activeOrder, a) && SlugsSet(half, after, deletedOrder, d)
    requires Assigned(RowBases(before, activeOrder), {}, a) && Assigned(RowBases(half, deletedOrder), Elems(a), d)
    ensures BackFilled(before, after, activeOrder, deletedOrder, a, d)
  {
    forall i | 0 <= i < |activeOrder| ensures after[activeOrder[i]] == before[activeOrder[i]].(slug := Some(a[i])) {
      var id := activeOrder[i];
      assert id in Select(before, false) && id in half && id !in deletedOrder;
      assert half[id] == before[id].(slug := Some(a[i])) && after[id] == half[id];
    }
    forall i | 0 <= i < |deletedOrder| ensures half[deletedOrder[i]] == before[deletedOrder[i]] {
      var id := deletedOrder[i];
      assert id in Select(before, true) && id in before && id !in activeOrder;
    }
    assert RowBases(before, deletedOrder) == RowBases(half, deletedOrder);
  }

  class SitesTable {
    var rows: Sites

    constructor (rows: Sites)
      ensures this.rows == rows
    {
      this.rows := rows;
    }

    /** `makeSlugUnique` (activeOnly) and `makeSlugUniqueForDeleted`, which differ in the query only: the
        loop returns the first free candidate, after at most |rows| + 1 queries. */
    method MakeSlugUnique(baseSlug: string, activeOnly: bool, excludeId: int) returns (slug: string, queries: nat)
      requires excludeId in rows
      ensures IsFirstFree(baseSlug, Held(Rest(rows, excludeId), activeOnly), slug)
      ensures queries <= |rows| + 1
    {
      var others := Rest(rows, excludeId);
      ghost var taken := Held(others, activeOnly);
      HeldSize(others, activeOnly);
      assert rows.Keys == others.Keys + {excludeId};
      slug := baseSlug;
      var counter := 1;
      queries := 1;
      while exists id :: id in others && others[id].slug == Some(slug) && (activeOnly ==> !others[id].deleted)
        invariant 1 <= counter == queries <= |taken| + 2
        invariant slug == Candidate(baseSlug, counter - 1)
        invariant forall j: nat :: j < counter - 1 ==> Candidate(baseSlug, j) in taken
        decreases |taken| + 2 - counter
      {
        assert slug in taken;
        DistinctCandidates(baseSlug, counter - 1, taken);
        var suffix := "-" + Text(counter);
        slug := DropEndHyphen(Truncate(baseSlug, Max(0, 50 - |suffix|)) + suffix);
        counter := counter + 1;
        queries := queries + 1;
      }
      assert IsFirstFreeAt(baseSlug, taken, slug, counter - 1);
    }

    /** One loop of `up`: each listed row gets the first free candidate of its base, where the slugs the
        query met before the loop and those given earlier in the loop are taken. */
    method AssignPhase(order: seq<int>, deleted: bool) returns (ghost slugs: seq<string>)
      requires Lists(order, Select(rows, deleted))
      requires forall i :: 0 <= i < |order| ==> rows[order[i]].slug == None
      modifies this
      ensures SlugsSet(old(rows), rows, order, slugs)
      ensures Assigned(RowBases(old(rows), order), Held(old(rows), !deleted), slugs)
      ensures Held(rows, !deleted) == Held(old(rows), !deleted) + Elems(slugs)
    {
      ghost var before := rows;
      slugs := [];
      assert order[..0] == [] && RowBases(before, order)[..0] == [];
      for i := 0 to |order|
        invariant |slugs| == i && PhaseInvariant(before, rows, order, !deleted, slugs)
      {
        var id := order[i];
        assert id in order && id !in order[..i];
        var baseSlug := if deleted then DeletedBaseSlug(rows[id].name) else BaseSlug(rows[id].name);
        var uniqueSlug, _ := MakeSlugUnique(baseSlug, !deleted, id);
        PhaseStep(before, rows, order, !deleted, slugs, uniqueSlug);
        rows := rows[id := rows[id].(slug := Some(uniqueSlug))];
        slugs := slugs + [uniqueSlug];
      }
      assert order[..|order|] == order && RowBases(before, order)[..|order|] == RowBases(before, order);
    }

    /** `up`: add the column, fill it for the active sites in the order given by the query, then for the
        deleted ones, and check that no null is left. The check never fails and the unique index that
        follows can be built, whatever the names and whatever order the database answers in. */
    method Up(activeOrder: seq<int>, deletedOrder: seq<int>)
        returns (ok: bool, ghost a: seq<string>, ghost d: seq<string>)
      requires Lists(activeOrder, Select(rows, false)) && Lists(deletedOrder, Select(rows, true))
      modifies this
      ensures ok
      ensures Lists(activeOrder, Select(WithoutSlugs(old(rows)), false))
      ensures Lists(deletedOrder, Select(WithoutSlugs(old(rows)), true))
      ensures BackFilled(WithoutSlugs(old(rows)), rows, activeOrder, deletedOrder, a, d)
    {
      rows := WithoutSlugs(rows);
      ghost var blank := rows;
      assert Select(blank, false) == old(Select(rows, false)) && Select(blank, true) == old(Select(rows, true));
      assert Held(blank, true) == {};
      a := AssignPhase(activeOrder, false);
      ghost var half := rows;
      forall id | id in blank ensures half[id].deleted == blank[id].deleted {
        SlugsSetKeeps(blank, half, activeOrder, a, id);
      }
      assert Select(half, true) == Select(blank, true);
      HeldByPhase(blank, half, activeOrder, a);
      forall i | 0 <= i < |deletedOrder| ensures half[deletedOrder[i]].slug == None {
        var id := deletedOrder[i];
        assert id in Select(blank, true) && id in blank && id !in activeOrder;
        assert half[id] == blank[id];
      }
      d := AssignPhase(deletedOrder, true);
      TwoPhases(blank, half, rows, activeOrder, deletedOrder, a, d);
      BackFillIsSound(blank, rows, activeOrder, deletedOrder, a, d);
      ok := forall id :: id in rows ==> rows[id].slug != None;
    }
  }
}
