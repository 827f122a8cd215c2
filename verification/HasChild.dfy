/** The `has_child` flag of comments: the background jobs of src/shared/services/comment-has-child.service.ts,
    the comment handlers that enqueue them, and the migration that fills the column. */
module HasChild {
  import opened Common

  datatype Kind = Post | SiteReview | ScamReport

  /** `thread` is the post, review or report commented on. */
  datatype Comment = Comment(thread: int, author: int, parent: Option<int>, deleted: bool, hasChild: bool)

  type Key = (Kind, int)

  type Comments = map<Key, Comment>

  datatype State = State(comments: Comments, jobs: multiset<Key>)

  predicate IsLive(cs: Comments, kind: Kind, id: int) {
    (kind, id) in cs && !cs[(kind, id)].deleted
  }

  predicate IsChild(cs: Comments, kind: Kind, p: int, c: int) {
    IsLive(cs, kind, c) && cs[(kind, c)].parent == Some(p)
  }

  /** The question every job asks: is there a child that is not deleted? */
  ghost predicate HasLiveChild(cs: Comments, kind: Kind, p: int) {
    exists c :: IsChild(cs, kind, p, c)
  }

  function Children(cs: Comments, kind: Kind, p: int): set<int> {
    set k | k in cs && k.0 == kind && IsChild(cs, kind, p, k.1) :: k.1
  }

  lemma ChildrenAre(cs: Comments, kind: Kind, p: int, c: int)
    ensures c in Children(cs, kind, p) <==> IsChild(cs, kind, p, c)
  {
    if IsChild(cs, kind, p, c) {
      assert (kind, c) in cs;
    }
  }

  /** Reached from c in n steps down through comments that are not deleted: the recursive query of
      `deleteAllChildrenRecursive`. */
  ghost predicate ReachedIn(cs: Comments, kind: Kind, c: int, d: int, n: nat)
    decreases n
  {
    if n == 0 then IsChild(cs, kind, c, d)
    else exists m :: ReachedIn(cs, kind, c, m, n - 1) && IsChild(cs, kind, m, d)
  }

  ghost predicate Reached(cs: Comments, kind: Kind, c: int, d: int) {
    exists n: nat :: ReachedIn(cs, kind, c, d, n)
  }

  /** Deleting a post comment takes its subtree along; the other kinds delete one comment. */
  ghost predicate GoesWith(cs: Comments, kind: Kind, c: int, d: int) {
    d == c || (kind == Post && Reached(cs, kind, c, d))
  }

  // ----- Steps -----

  datatype Event =
    | Add(kind: Kind, id: int, thread: int, author: int, parent: Option<int>, open: bool)
    | Delete(kind: Kind, id: int, user: int)
    | RunJob(kind: Kind, id: int)

  function Enqueued(jobs: multiset<Key>, kind: Kind, parent: Option<int>): multiset<Key> {
    if parent.Some? then jobs + multiset{(kind, parent.value)} else jobs
  }

  /** A comment is admitted if its thread is open to its author (it exists and is published, or the author's own,
      and the images are acceptable), and a new row needs an unused id and, if it answers another comment, that
      comment (the foreign key). A site review comment also needs it not to be deleted and of the same review. */
  predicate MayAdd(cs: Comments, kind: Kind, id: int, thread: int, parent: Option<int>, open: bool) {
    open && (kind, id) !in cs
    && (parent.Some? ==>
          (kind, parent.value) in cs
          && (kind == SiteReview ==> IsLive(cs, kind, parent.value) && cs[(kind, parent.value)].thread == thread))
  }

  /** Authors delete their own comments. */
  predicate MayDelete(cs: Comments, kind: Kind, id: int, user: int) {
    IsLive(cs, kind, id) && cs[(kind, id)].author == user
  }

  ghost predicate OnlyDeleted(before: Comments, after: Comments, kind: Kind, c: int) {
    after.Keys == before.Keys
    && forall k :: k in before ==>
         after[k] == if k.0 == kind && GoesWith(before, kind, c, k.1) then before[k].(deleted := true) else before[k]
  }

  ghost predicate Step(s: State, e: Event, s': State) {
    match e
    case Add(kind, id, thread, author, parent, open) =>
      if !MayAdd(s.comments, kind, id, thread, parent, open) then s' == s
      else
        s' == State(s.comments[(kind, id) := Comment(thread, author, parent, false, false)],
                    Enqueued(s.jobs, kind, parent))
    case Delete(kind, id, user) =>
      if !MayDelete(s.comments, kind, id, user) then s' == s
      else OnlyDeleted(s.comments, s'.comments, kind, id)
           && s'.jobs == Enqueued(s.jobs, kind, s.comments[(kind, id)].parent)
    case RunJob(kind, id) =>
      if (kind, id) !in s.jobs then s' == s
      else
        s'.jobs == s.jobs - multiset{(kind, id)}
        && s'.comments ==
             if (kind, id) in s.comments
             then s.comments[(kind, id) := s.comments[(kind, id)].(hasChild := HasLiveChild(s.comments, kind, id))]
             else s.comments
  }

  /** What the flag of comment p is worth when no job for it is pending. It never misses a child. It can only be
      wrong for a deleted post comment, whose subtree went with it without a job. */
  ghost predicate FlagRight(cs: Comments, k: Key)
    requires k in cs
  {
    (HasLiveChild(cs, k.0, k.1) ==> cs[k].hasChild)
    && (cs[k].hasChild && (k.0 != Post || !cs[k].deleted) ==> HasLiveChild(cs, k.0, k.1))
  }

  ghost predicate Consistent(s: State) {
    (forall k :: k in s.comments && k !in s.jobs ==> FlagRight(s.comments, k))
    && forall k :: k in s.comments && s.comments[k].parent.Some? ==> (k.0, s.comments[k].parent.value) in s.comments
  }

  lemma AddKeepsFlag(s: State, e: Event, s': State, k: Key)
    requires Consistent(s) && e.Add? && Step(s, e, s') && k in s'.comments && k !in s'.jobs
    ensures FlagRight(s'.comments, k)
  {
    if s' != s {
      var added := (e.kind, e.id);
      forall c ensures k in s.comments ==> (IsChild(s'.comments, k.0, k.1, c) <==> IsChild(s.comments, k.0, k.1, c)) {}
      if k == added {
        forall c ensures !IsChild(s'.comments, k.0, k.1, c) {}
      }
    }
  }

  /** Whoever goes with a deleted comment is that comment or a child of someone who goes as well. */
  lemma GoesWithParent(cs: Comments, kind: Kind, c: int, d: int)
    requires GoesWith(cs, kind, c, d) && d != c
    ensures IsLive(cs, kind, d) && cs[(kind, d)].parent.Some? && GoesWith(cs, kind, c, cs[(kind, d)].parent.value)
  {
    var n: nat :| ReachedIn(cs, kind, c, d, n);
    if n > 0 {
      var m :| ReachedIn(cs, kind, c, m, n - 1) && IsChild(cs, kind, m, d);
      assert Reached(cs, kind, c, m);
    }
  }

  lemma DeleteKeepsFlag(s: State, e: Event, s': State, k: Key)
    requires Consistent(s) && e.Delete? && Step(s, e, s') && k in s'.comments && k !in s'.jobs
    ensures FlagRight(s'.comments, k)
  {
    if MayDelete(s.comments, e.kind, e.id, e.user) {
      forall c ensures IsChild(s'.comments, k.0, k.1, c) ==> IsChild(s.comments, k.0, k.1, c) {
        assert (k.0, c) in s.comments <==> (k.0, c) in s'.comments;
      }
      if HasLiveChild(s.comments, k.0, k.1) && !HasLiveChild(s'.comments, k.0, k.1) {
        var c :| IsChild(s.comments, k.0, k.1, c);
        assert !IsChild(s'.comments, k.0, k.1, c);
        assert GoesWith(s.comments, e.kind, e.id, c);
        if c != e.id {
          GoesWithParent(s.comments, e.kind, e.id, c);
        }
      }
    }
  }

  lemma JobKeepsFlag(s: State, e: Event, s': State, k: Key)
    requires Consistent(s) && e.RunJob? && Step(s, e, s') && k in s'.comments && k !in s'.jobs
    ensures FlagRight(s'.comments, k)
  {
    forall c ensures IsChild(s'.comments, k.0, k.1, c) <==> IsChild(s.comments, k.0, k.1, c) {}
    assert HasLiveChild(s'.comments, k.0, k.1) <==> HasLiveChild(s.comments, k.0, k.1);
    if k != (e.kind, e.id) {
      assert k !in s.jobs;
    }
  }

  lemma StepKeepsConsistent(s: State, e: Event, s': State)
    requires Consistent(s) && Step(s, e, s')
    ensures Consistent(s')
  {
    forall k | k in s'.comments && k !in s'.jobs ensures FlagRight(s'.comments, k) {
      match e
      case Add(_, _, _, _, _, _) => AddKeepsFlag(s, e, s', k);
      case Delete(_, _, _) => DeleteKeepsFlag(s, e, s', k);
      case RunJob(_, _) => JobKeepsFlag(s, e, s', k);
    }
  }

  /** A job touches the flag of one comment, and never a comment of another kind. */
  lemma JobsStayInTheirTable(s: State, e: Event, s': State, k: Key)
    requires e.RunJob? && Step(s, e, s') && k in s.comments
    ensures k in s'.comments && s'.comments[k].(hasChild := false) == s.comments[k].(hasChild := false)
    ensures k != (e.kind, e.id) ==> s'.comments[k] == s.comments[k]
  {}

  // ----- The migration and whole runs -----

  /** `UPDATE ... SET has_child = true WHERE id IN (SELECT parent_comment_id ... WHERE deleted_at IS NULL)` on a
      column that starts out false. */
  ghost function BackFill(cs: Comments): Comments {
    map k | k in cs :: cs[k].(hasChild := HasLiveChild(cs, k.0, k.1))
  }

  ghost predicate ForeignKeys(cs: Comments) {
    forall k :: k in cs && cs[k].parent.Some? ==> (k.0, cs[k].parent.value) in cs
  }

  lemma BackFillIsConsistent(cs: Comments)
    requires ForeignKeys(cs)
    ensures Consistent(State(BackFill(cs), multiset{}))
    ensures forall k :: k in cs ==> (BackFill(cs)[k].hasChild <==> HasLiveChild(BackFill(cs), k.0, k.1))
  {
    forall k | k in cs ensures HasLiveChild(BackFill(cs), k.0, k.1) <==> HasLiveChild(cs, k.0, k.1) {
      forall c ensures IsChild(BackFill(cs), k.0, k.1, c) <==> IsChild(cs, k.0, k.1, c) {
        assert (k.0, c) in cs <==> (k.0, c) in BackFill(cs);
      }
    }
  }

  ghost predicate Run(start: Comments, ss: seq<State>, es: seq<Event>) {
    |ss| == |es| + 1 && ss[0] == State(BackFill(start), multiset{})
    && forall i :: 0 <= i < |es| ==> Step(ss[i], es[i], ss[i + 1])
  }

  lemma {:induction false} RunsStayConsistent(start: Comments, ss: seq<State>, es: seq<Event>, n: nat)
    requires ForeignKeys(start) && Run(start, ss, es) && n <= |es|
    ensures Consistent(ss[n])
  {
    if n == 0 {
      BackFillIsConsistent(start);
    } else {
      RunsStayConsistent(start, ss, es, n - 1);
      assert Step(ss[n - 1], es[n - 1], ss[n - 1 + 1]);
      StepKeepsConsistent(ss[n - 1], es[n - 1], ss[n]);
    }
  }

  /** The cache's promise. After the migration, in any interleaving of replies, deletions and jobs: whenever no
      job for a comment is pending, its flag says exactly whether it has a child that is not deleted; for post
      comments this holds as long as the comment itself is not deleted. */
  lemma FlagIsExact(start: Comments, ss: seq<State>, es: seq<Event>, n: nat, k: Key)
    requires ForeignKeys(start) && Run(start, ss, es) && n <= |es|
    requires k in ss[n].comments && k !in ss[n].jobs
    ensures var cs := ss[n].comments;
            var replied := exists c :: (k.0, c) in cs && !cs[(k.0, c)].deleted && cs[(k.0, c)].parent == Some(k.1);
            (k.0 != Post || !cs[k].deleted ==> (cs[k].hasChild <==> replied)) && (replied ==> cs[k].hasChild)
  {
    RunsStayConsistent(start, ss, es, n);
    LiveChildIs(ss[n].comments, k.0, k.1);
    hide Run, HasLiveChild;
  }

  lemma LiveChildIs(cs: Comments, kind: Kind, p: int)
    ensures HasLiveChild(cs, kind, p) <==>
              exists c :: (kind, c) in cs && !cs[(kind, c)].deleted && cs[(kind, c)].parent == Some(p)
  {
    if HasLiveChild(cs, kind, p) {
      var c :| IsChild(cs, kind, p, c);
      assert (kind, c) in cs;
    }
    if c :| (kind, c) in cs && !cs[(kind, c)].deleted && cs[(kind, c)].parent == Some(p) {
      assert IsChild(cs, kind, p, c);
    }
  }

  /** The proviso is needed, and this is exactly when. A comment that goes with a deleted post comment keeps no
      child, and keeps its flag: the flag is wrong afterwards if and only if the comment had a child before. */
  lemma DeletionLeavesFlagWrongIff(s: State, e: Event, s': State, k: Key)
    requires Consistent(s) && e.Delete? && e.kind == Post && MayDelete(s.comments, Post, e.id, e.user) && Step(s, e, s')
    requires k in s.comments && k !in s.jobs && k.0 == Post && GoesWith(s.comments, Post, e.id, k.1)
    ensures k in s'.comments && s'.comments[k].deleted && !HasLiveChild(s'.comments, Post, k.1)
    ensures s'.comments[k].hasChild <==> HasLiveChild(s.comments, Post, k.1)
  {
    if k.1 != e.id {
      GoesWithParent(s.comments, Post, e.id, k.1);
    }
    forall c ensures !IsChild(s'.comments, Post, k.1, c) {
      if IsChild(s'.comments, Post, k.1, c) {
        assert (Post, c) in s.comments;
        GoesWithChild(s.comments, e.id, k.1, c);
      }
    }
  }

  /** The children of whoever goes with a deleted post comment go as well. */
  lemma GoesWithChild(cs: Comments, c: int, m: int, d: int)
    requires GoesWith(cs, Post, c, m) && IsChild(cs, Post, m, d)
    ensures GoesWith(cs, Post, c, d)
  {
    if m == c {
      assert ReachedIn(cs, Post, c, d, 0);
    } else {
      ReachedStep(cs, Post, c, m, d);
    }
  }

  // ----- Who adds and deletes -----

  /** From a comment down through replies that are not deleted. */
  predicate IsPath(cs: Comments, kind: Kind, path: seq<int>) {
    path != []
    && forall i :: 0 < i < |path| ==>
         (kind, path[i]) in cs && !cs[(kind, path[i])].deleted && cs[(kind, path[i])].parent == Some(path[i - 1])
  }

  lemma {:induction false} PathOf(cs: Comments, kind: Kind, c: int, d: int, n: nat) returns (path: seq<int>)
    requires ReachedIn(cs, kind, c, d, n)
    ensures IsPath(cs, kind, path) && |path| >= 2 && path[0] == c && path[|path| - 1] == d
    decreases n
  {
    if n == 0 {
      path := [c, d];
    } else {
      var m :| ReachedIn(cs, kind, c, m, n - 1) && IsChild(cs, kind, m, d);
      var p := PathOf(cs, kind, c, m, n - 1);
      path := p + [d];
    }
  }

  lemma {:induction false} PathReaches(cs: Comments, kind: Kind, path: seq<int>)
    requires IsPath(cs, kind, path) && |path| >= 2
    ensures Reached(cs, kind, path[0], path[|path| - 1])
    decreases |path|
  {
    var n := |path| - 1;
    assert IsChild(cs, kind, path[n - 1], path[n]);
    if n == 1 {
      assert ReachedIn(cs, kind, path[0], path[1], 0);
    } else {
      PathReaches(cs, kind, path[..n]);
      ReachedStep(cs, kind, path[0], path[n - 1], path[n]);
    }
  }

  lemma GoesWithIsPath(cs: Comments, kind: Kind, c: int, d: int)
    ensures GoesWith(cs, kind, c, d) <==>
              d == c || (kind == Post && exists path :: IsPath(cs, kind, path) && path[0] == c && path[|path| - 1] == d)
  {
    if kind == Post && d != c {
      if Reached(cs, kind, c, d) {
        var n: nat :| ReachedIn(cs, kind, c, d, n);
        var path := PathOf(cs, kind, c, d, n);
      }
      if path :| IsPath(cs, kind, path) && path[0] == c && path[|path| - 1] == d {
        PathReaches(cs, kind, path);
      }
    }
  }

  /** A comment the user wrote, not deleted. */
  predicate OwnLive(cs: Comments, kind: Kind, id: int, user: int) {
    (kind, id) in cs && !cs[(kind, id)].deleted && cs[(kind, id)].author == user
  }

  /** In every run a comment gets deleted exactly when the author of the comment itself, or for posts of one it
      answers, directly or through undeleted replies, deletes that one. Thread, author and parent never change. */
  lemma DeletedIff(start: Comments, ss: seq<State>, es: seq<Event>, n: nat, k: Key)
    requires Run(start, ss, es) && n < |es| && k in ss[n].comments
    ensures var cs, e, next := ss[n].comments, es[n], ss[n + 1].comments;
            k in next && next[k].(deleted := false, hasChild := false) == cs[k].(deleted := false, hasChild := false)
            && (next[k].deleted <==>
                  cs[k].deleted
                  || (e.Delete? && e.kind == k.0 && OwnLive(cs, e.kind, e.id, e.user)
                      && (k.1 == e.id
                          || (k.0 == Post
                              && exists path :: IsPath(cs, Post, path) && path[0] == e.id && path[|path| - 1] == k.1))))
  {
    assert Step(ss[n], es[n], ss[n + 1]);
    hide Run;
    if es[n].Delete? {
      GoesWithIsPath(ss[n].comments, es[n].kind, es[n].id, k.1);
    }
    hide GoesWith;
  }

  /** In every run a comment appears exactly when it is posted to an open thread under an unused id, and the comment
      it answers exists; for site reviews that one must also be undeleted and of the same review. */
  lemma AddedIff(start: Comments, ss: seq<State>, es: seq<Event>, n: nat, k: Key)
    requires Run(start, ss, es) && n < |es| && k !in ss[n].comments
    ensures var cs, e, next := ss[n].comments, es[n], ss[n + 1].comments;
            (k in next <==>
               e.Add? && (e.kind, e.id) == k && e.open
               && (e.parent.Some? ==>
                     (e.kind, e.parent.value) in cs
                     && (e.kind == SiteReview ==>
                           !cs[(e.kind, e.parent.value)].deleted && cs[(e.kind, e.parent.value)].thread == e.thread)))
            && (k in next ==> next[k] == Comment(e.thread, e.author, e.parent, false, false))
  {
    assert Step(ss[n], es[n], ss[n + 1]);
    hide Run;
  }

  /** A refused deletion, by anyone else or of a deleted comment, changes nothing; an admitted one, and a new reply,
      leave one job for the parent, and no other jobs. */
  lemma JobsFollow(start: Comments, ss: seq<State>, es: seq<Event>, n: nat)
    requires Run(start, ss, es) && n < |es|
    ensures var s, e, next := ss[n], es[n], ss[n + 1];
            (e.Delete? && !OwnLive(s.comments, e.kind, e.id, e.user) ==> next == s)
            && (e.Delete? && OwnLive(s.comments, e.kind, e.id, e.user) ==>
                  var parent := s.comments[(e.kind, e.id)].parent;
                  next.jobs == if parent == None then s.jobs else s.jobs + multiset{(e.kind, parent.value)})
            && (e.Add? && (e.kind, e.id) !in s.comments && (e.kind, e.id) in next.comments ==>
                  next.jobs == if e.parent == None then s.jobs else s.jobs + multiset{(e.kind, e.parent.value)})
            && (e.Add? && next.comments == s.comments ==> next == s)
            && (e.RunJob? ==> next.jobs == s.jobs - multiset{(e.kind, e.id)})
  {
    assert Step(ss[n], es[n], ss[n + 1]);
    hide Run;
  }

  /** For example, in this run from the empty tables a post comment is written and answered, the job runs, and the
      author deletes the comment. No job is pending, the flag is set, and there is no child. */
  lemma DeletedPostCommentKeepsFlag()
    ensures var one := Comment(9, 7, None, false, false);
            var two := Comment(9, 8, Some(1), false, false);
            var s0, s1 := State(map[], multiset{}), State(map[(Post, 1) := one], multiset{});
            var s2 := State(map[(Post, 1) := one, (Post, 2) := two], multiset{(Post, 1)});
            var s3 := State(map[(Post, 1) := one.(hasChild := true), (Post, 2) := two], multiset{});
            var s4 := State(map[(Post, 1) := Comment(9, 7, None, true, true),
                                (Post, 2) := two.(deleted := true)], multiset{});
            Run(map[], [s0, s1, s2, s3, s4],
                [Add(Post, 1, 9, 7, None, true), Add(Post, 2, 9, 8, Some(1), true), RunJob(Post, 1),
                 Delete(Post, 1, 7)])
            && s4.comments[(Post, 1)].hasChild && !HasLiveChild(s4.comments, Post, 1)
  {
    var one := Comment(9, 7, None, false, false);
    var two := Comment(9, 8, Some(1), false, false);
    var s0, s1 := State(map[], multiset{}), State(map[(Post, 1) := one], multiset{});
    var s2 := State(map[(Post, 1) := one, (Post, 2) := two], multiset{(Post, 1)});
    var s3 := State(map[(Post, 1) := one.(hasChild := true), (Post, 2) := two], multiset{});
    assert BackFill(map[]) == map[];
    assert Step(s0, Add(Post, 1, 9, 7, None, true), s1);
    assert Step(s1, Add(Post, 2, 9, 8, Some(1), true), s2);
    JobStep(one, two);
    DeleteStep(one.(hasChild := true), two);
  }

  lemma JobStep(one: Comment, two: Comment)
    requires one.parent == None && two.parent == Some(1) && !two.deleted
    ensures var cs := map[(Post, 1) := one, (Post, 2) := two];
            Step(State(cs, multiset{(Post, 1)}), RunJob(Post, 1),
                 State(cs[(Post, 1) := one.(hasChild := true)], multiset{}))
  {
    assert IsChild(map[(Post, 1) := one, (Post, 2) := two], Post, 1, 2);
  }

  lemma DeleteStep(one: Comment, two: Comment)
    requires one.parent == None && two.parent == Some(1) && !one.deleted && !two.deleted
    ensures var cs := map[(Post, 1) := one, (Post, 2) := two];
            var after := map[(Post, 1) := one.(deleted := true), (Post, 2) := two.(deleted := true)];
            Step(State(cs, multiset{}), Delete(Post, 1, one.author), State(after, multiset{}))
            && !HasLiveChild(after, Post, 1)
  {
    var cs := map[(Post, 1) := one, (Post, 2) := two];
    assert IsChild(cs, Post, 1, 2);
    assert ReachedIn(cs, Post, 1, 2, 0);
    assert GoesWith(cs, Post, 1, 2);
  }

  // ----- The handlers and the job -----

  /** A set holding the children of c and of its own members holds everything reached from c. */
  lemma {:induction false} ClosedHoldsReached(cs: Comments, kind: Kind, c: int, tree: set<int>, d: int, n: nat)
    requires forall m, x :: (m == c || m in tree) && IsChild(cs, kind, m, x) ==> x in tree
    requires ReachedIn(cs, kind, c, d, n)
    ensures d in tree
    decreases n
  {
    if n > 0 {
      var m :| ReachedIn(cs, kind, c, m, n - 1) && IsChild(cs, kind, m, d);
      ClosedHoldsReached(cs, kind, c, tree, m, n - 1);
    }
  }

  lemma ReachedStep(cs: Comments, kind: Kind, c: int, m: int, d: int)
    requires Reached(cs, kind, c, m) && IsChild(cs, kind, m, d)
    ensures Reached(cs, kind, c, d)
  {
    var n: nat :| ReachedIn(cs, kind, c, m, n);
    assert ReachedIn(cs, kind, c, d, n + 1);
  }

  function LiveIds(cs: Comments, kind: Kind): set<int> {
    set k | k in cs && k.0 == kind && !cs[k].deleted :: k.1
  }

  /** The comments one level below a set, without those already collected. */
  function NextLevel(cs: Comments, kind: Kind, level: set<int>, tree: set<int>): set<int> {
    set k | k in cs && k.0 == kind && !cs[k].deleted && cs[k].parent.Some? && cs[k].parent.value in level
        && k.1 !in tree :: k.1
  }

  lemma NextLevelIs(cs: Comments, kind: Kind, level: set<int>, tree: set<int>, d: int)
    ensures d in NextLevel(cs, kind, level, tree) <==>
              d !in tree && exists m :: m in level && IsChild(cs, kind, m, d)
  {
    if IsLive(cs, kind, d) && cs[(kind, d)].parent.Some? && cs[(kind, d)].parent.value in level {
      assert IsChild(cs, kind, cs[(kind, d)].parent.value, d);
    }
    if m :| m in level && IsChild(cs, kind, m, d) {
      assert (kind, d) in cs;
    }
  }

  /** The recursive query, level by level. */
  method CommentTree(cs: Comments, kind: Kind, c: int) returns (tree: set<int>)
    ensures forall d :: d in tree <==> Reached(cs, kind, c, d)
  {
    tree := {};
    var level := NextLevel(cs, kind, {c}, {});
    forall d ensures d in level <==> IsChild(cs, kind, c, d) {
      NextLevelIs(cs, kind, {c}, {}, d);
    }
    assert forall d :: d in level ==> ReachedIn(cs, kind, c, d, 0);
    while level != {}
      invariant level !! tree && level + tree <= LiveIds(cs, kind)
      invariant forall d :: d in level + tree ==> Reached(cs, kind, c, d)
      invariant forall m, d :: (m == c || m in tree) && IsChild(cs, kind, m, d) ==> d in level + tree
      decreases LiveIds(cs, kind) - tree
    {
      var more := tree + level;
      var next := NextLevel(cs, kind, level, more);
      forall d | d in next ensures Reached(cs, kind, c, d) && d in LiveIds(cs, kind) {
        NextLevelIs(cs, kind, level, more, d);
        var m :| m in level && IsChild(cs, kind, m, d);
        ReachedStep(cs, kind, c, m, d);
        assert (kind, d) in cs;
      }
      forall m, d | m in level && IsChild(cs, kind, m, d) ensures d in next + more {
        NextLevelIs(cs, kind, level, more, d);
      }
      tree, level := more, next;
    }
    forall d | Reached(cs, kind, c, d) ensures d in tree {
      var n: nat :| ReachedIn(cs, kind, c, d, n);
      ClosedHoldsReached(cs, kind, c, tree, d, n);
    }
  }

  class CommentTables {
    var comments: Comments
    var jobs: multiset<Key>

    ghost function Abs(): State
      reads this
    {
      State(comments, jobs)
    }

    /** The column added and filled by the migration, on existing comments. */
    constructor (existing: Comments)
      ensures Abs() == State(BackFill(existing), multiset{})
    {
      comments := map k | k in existing ::
        existing[k].(hasChild :=
          exists x :: x in existing && x.0 == k.0 && !existing[x].deleted && existing[x].parent == Some(k.1));
      jobs := multiset{};
      new;
      forall k | k in existing
        ensures HasLiveChild(existing, k.0, k.1)
                <==> exists x :: x in existing && x.0 == k.0 && !existing[x].deleted && existing[x].parent == Some(k.1)
      {
        if x :| x in existing && x.0 == k.0 && !existing[x].deleted && existing[x].parent == Some(k.1) {
          assert IsChild(existing, k.0, k.1, x.1);
        }
        if c :| IsChild(existing, k.0, k.1, c) {
          assert (k.0, c) in existing;
        }
      }
    }

    method AddComment(kind: Kind, id: int, thread: int, author: int, parent: Option<int>, open: bool) returns (ok: bool)
      modifies this
      ensures ok == MayAdd(old(comments), kind, id, thread, parent, open)
      ensures Step(old(Abs()), Add(kind, id, thread, author, parent, open), Abs())
    {
      if !open {
        return false;
      }
      if kind == SiteReview && parent.Some? {
        var key := (kind, parent.value);
        if key !in comments || comments[key].deleted || comments[key].thread != thread {
          return false;
        }
      }
      if (kind, id) in comments || (parent.Some? && (kind, parent.value) !in comments) {
        return false;  // the keys of the table abort the transaction
      }
      comments := comments[(kind, id) := Comment(thread, author, parent, false, false)];
      if parent.Some? {
        jobs := jobs + multiset{(kind, parent.value)};
      }
      ok := true;
    }

    method DeleteComment(kind: Kind, id: int, user: int) returns (ok: bool)
      modifies this
      ensures ok == MayDelete(old(comments), kind, id, user)
      ensures Step(old(Abs()), Delete(kind, id, user), Abs())
    {
      ok := (kind, id) in comments && !comments[(kind, id)].deleted && comments[(kind, id)].author == user;
      if ok {
        var parent := comments[(kind, id)].parent;
        var gone := {id};
        if kind == Post {
          var tree := CommentTree(comments, kind, id);
          gone := gone + tree;
        }
        comments := map k | k in comments ::
          if k.0 == kind && k.1 in gone then comments[k].(deleted := true) else comments[k];
        if parent.Some? {
          jobs := jobs + multiset{(kind, parent.value)};
        }
      }
    }

    /** `updateHasChild`, taken off the queue: look for one child, then write the flag. */
    method UpdateHasChild(kind: Kind, id: int)
      requires (kind, id) in jobs
      modifies this
      ensures Step(old(Abs()), RunJob(kind, id), Abs())
    {
      jobs := jobs - multiset{(kind, id)};
      var children := Children(comments, kind, id);
      var hasChild := children != {};
      assert hasChild <==> HasLiveChild(comments, kind, id) by {
        if hasChild {
          var c :| c in children;
          ChildrenAre(comments, kind, id, c);
        }
        if c :| IsChild(comments, kind, id, c) {
          ChildrenAre(comments, kind, id, c);
        }
      }
      if (kind, id) in comments {
        comments := comments[(kind, id) := comments[(kind, id)].(hasChild := hasChild)];
      }
    }
  }
}
