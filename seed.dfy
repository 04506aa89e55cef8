/**
 * The seeding tool (seed_improved.py): it creates the users `prefix1..prefixN`
 * in a key-value store, gives each a random set of other users to follow and
 * writes a number of posts in batches.
 *
 * The store is modelled as a class with two fields: the `User` entities as a
 * map from user name to follows list, and the `Post` entities written so far.
 * Random choices are nondeterministic picks within the bounds the program
 * draws them from; a batch write either succeeds whole or fails whole, as a
 * given oracle says.
 */
module Seed {
  import opened Wrappers
  import opened Decimal
  import opened Lex
  import Identity

  /** A `Post` entity; `created` is the timestamp in seconds. */
  datatype Post = Post(author: string, content: string, created: int)

  /** The exceptions that abort a seeding run. */
  datatype SeedError =
    | FollowRange   // `random.randint` on an empty range, or `random.sample` asked for a negative count
    | ZeroBatchSize // `// batch_size` with a batch size of 0

  /** What a seeding run reports: users created (or that would be) and posts created. */
  datatype Report = Report(newUsers: nat, createdPosts: nat)

  /** One draw of `assign_follows`: the user and the names picked for them. */
  datatype Pick = Pick(user: string, selection: seq<string>)

  function Min(a: int, b: int): int { if a <= b then a else b }

  // ---------------------------------------------------------------------------
  // User names

  /** The user list of a seeding run: `prefix + str(i)` for i in 1..users. */
  function SeedNames(prefix: string, users: int): (names: seq<string>)
    ensures names == Identity.MakeUsernames(prefix, users, 1)
  {
    seq(if users > 0 then users else 0, i => prefix + IntToString(i + 1))
  }

  /** The seeded names are `users` distinct names (none when `users <= 0`). */
  lemma SeedNamesDistinct(prefix: string, users: int)
    ensures |SeedNames(prefix, users)| == (if users > 0 then users else 0)
    ensures Distinct(SeedNames(prefix, users))
  {
    Identity.UsernamesDistinct(prefix, users, 1);
  }

  // ---------------------------------------------------------------------------
  // Sorted sets of names: `sorted(set(...))`

  /** Strictly increasing in Python's string order, hence also duplicate-free. */
  predicate StrictlySorted(xs: seq<string>)
  {
    forall i, j :: 0 <= i < j < |xs| ==> LexLt(xs[i], xs[j])
  }

  function InsertName(x: string, xs: seq<string>): (r: seq<string>)
    requires StrictlySorted(xs)
    ensures StrictlySorted(r)
    ensures forall y :: y in r <==> y == x || y in xs
  {
    if xs == [] then [x]
    else if x == xs[0] then xs
    else if LexLt(x, xs[0]) then
      assert forall j :: 0 <= j < |xs| ==> LexLt(x, xs[j]) by {
        forall j | 0 <= j < |xs| ensures LexLt(x, xs[j]) {
          if j > 0 { LexLtOrder(x, xs[0], xs[j]); }
        }
      }
      [x] + xs
    else
      var rest := InsertName(x, xs[1..]);
      LexLtOrder(x, xs[0], x);
      assert forall y :: y in rest ==> LexLt(xs[0], y);
      [xs[0]] + rest
  }

  /** `sorted(set(xs))`: the distinct names of `xs` in increasing order. */
  function SortedSet(xs: seq<string>): (r: seq<string>)
    ensures StrictlySorted(r)
    ensures forall y :: y in r <==> y in xs
  {
    if xs == [] then []
    else
      var front := xs[..|xs| - 1];
      assert forall y :: y in xs <==> y in front || y == xs[|xs| - 1] by {
        assert xs == front + [xs[|xs| - 1]];
      }
      InsertName(xs[|xs| - 1], SortedSet(front))
  }

  /**
   * A strictly sorted sequence is determined by its elements, so `SortedSet`
   * is the one list `sorted(set(xs))` can denote.
   */
  lemma {:induction false} SortedSetUnique(a: seq<string>, b: seq<string>)
    requires StrictlySorted(a) && StrictlySorted(b)
    requires forall y :: y in a <==> y in b
    ensures a == b
    decreases |a|
  {
    if a == [] {
      FirstIsMember(b);
    } else {
      assert a[0] in b && b[0] in a;
      if a[0] != b[0] {
        var i :| 0 <= i < |a| && a[i] == b[0];
        var j :| 0 <= j < |b| && b[j] == a[0];
        LexLtOrder(a[0], b[0], a[0]);
        assert false;
      }
      assert a == [a[0]] + a[1..] && b == [b[0]] + b[1..];
      forall y ensures y in a[1..] <==> y in b[1..] {
        if y in a[1..] {
          var i :| 0 <= i < |a| - 1 && a[1..][i] == y;
          assert LexLt(a[0], a[i + 1]);
          assert y in b && y != b[0];
        }
        if y in b[1..] {
          var i :| 0 <= i < |b| - 1 && b[1..][i] == y;
          assert LexLt(b[0], b[i + 1]);
          assert y in a && y != a[0];
        }
      }
      SortedSetUnique(a[1..], b[1..]);
    }
  }

  lemma FirstIsMember(xs: seq<string>)
    ensures xs != [] ==> xs[0] in xs
  {
  }

  /**
   * The new follows list: the existing follows merged with a selection, as a
   * sorted duplicate-free list that keeps every existing follow.
   */
  function MergeFollows(existing: seq<string>, selection: seq<string>): (r: seq<string>)
    ensures StrictlySorted(r)
    ensures forall y :: y in r <==> y in existing || y in selection
  {
    SortedSet(existing + selection)
  }

  // ---------------------------------------------------------------------------
  // ensure_users, as functions of the names looked up so far

  /** The store after creating, in order, each name not yet present, with no follows. */
  function AddUsers(users: map<string, seq<string>>, names: seq<string>): (r: map<string, seq<string>>)
    ensures forall u :: u in r <==> u in users || u in names
    ensures forall u :: u in users ==> r[u] == users[u]
    ensures forall u :: u in r && u !in users ==> r[u] == []
  {
    if names == [] then users
    else
      var front := AddUsers(users, names[..|names| - 1]);
      var x := names[|names| - 1];
      assert names == names[..|names| - 1] + [x];
      if x in front then front else front[x := []]
  }

  /** The `created` counter of a real run: names missing when they are looked up. */
  function NewCount(users: map<string, seq<string>>, names: seq<string>): nat
  {
    if names == [] then 0
    else
      var front := names[..|names| - 1];
      NewCount(users, front) + (if names[|names| - 1] in AddUsers(users, front) then 0 else 1)
  }

  /** The `created` counter of a dry run: nothing is written, so every missing occurrence counts. */
  function MissingCount(users: map<string, seq<string>>, names: seq<string>): nat
  {
    if names == [] then 0
    else MissingCount(users, names[..|names| - 1]) + (if names[|names| - 1] in users then 0 else 1)
  }

  function NewNames(users: map<string, seq<string>>, names: seq<string>): set<string>
  {
    set u | u in names && u !in users
  }

  /** A real run counts each distinct missing name exactly once. */
  lemma {:induction false} NewCountIsNewNames(users: map<string, seq<string>>, names: seq<string>)
    ensures NewCount(users, names) == |NewNames(users, names)|
    decreases |names|
  {
    if names == [] {
      assert NewNames(users, names) == {};
    } else {
      var front, x := names[..|names| - 1], names[|names| - 1];
      assert names == front + [x];
      NewCountIsNewNames(users, front);
      if x in users || x in front {
        assert NewNames(users, names) == NewNames(users, front);
      } else {
        assert NewNames(users, names) == NewNames(users, front) + {x};
      }
    }
  }

  /** On distinct names the dry-run count is the real count. */
  lemma {:induction false} DryCountMatches(users: map<string, seq<string>>, names: seq<string>)
    requires Distinct(names)
    ensures MissingCount(users, names) == NewCount(users, names)
    decreases |names|
  {
    if names != [] {
      var front, x := names[..|names| - 1], names[|names| - 1];
      assert x !in front;
      DryCountMatches(users, front);
    }
  }

  /** On a repeated name the dry run counts more than the real run would create. */
  lemma DryCountsRepeats()
    ensures MissingCount(map[], ["u", "u"]) == 2
    ensures NewCount(map[], ["u", "u"]) == 1
  {
    assert ["u", "u"][..1] == ["u"];
    assert ["u"][..0] == [];
  }

  /** Once the names exist, running user creation again changes nothing and creates nothing. */
  lemma {:induction false} EnsureUsersIdempotent(users: map<string, seq<string>>, names: seq<string>)
    requires forall x :: x in names ==> x in users
    ensures AddUsers(users, names) == users
    ensures NewCount(users, names) == 0
    decreases |names|
  {
    if names != [] {
      var front := names[..|names| - 1];
      assert names == front + [names[|names| - 1]];
      EnsureUsersIdempotent(users, front);
    }
  }

  lemma AddUsersTwice(users: map<string, seq<string>>, names: seq<string>)
    ensures AddUsers(AddUsers(users, names), names) == AddUsers(users, names)
    ensures NewCount(AddUsers(users, names), names) == 0
  {
    EnsureUsersIdempotent(AddUsers(users, names), names);
  }

  // ---------------------------------------------------------------------------
  // assign_follows

  /** `[u for u in names if u != name]`. */
  function Others(names: seq<string>, name: string): (r: seq<string>)
    ensures |r| <= |names|
    ensures forall u :: u in r <==> u in names && u != name
  {
    if names == [] then []
    else
      var front, x := names[..|names| - 1], names[|names| - 1];
      assert names == front + [x];
      Others(front, name) + (if x != name then [x] else [])
  }

  /** The other names of a duplicate-free list are duplicate-free too. */
  lemma {:induction false} OthersDistinct(names: seq<string>, name: string)
    requires Distinct(names)
    ensures Distinct(Others(names, name))
    decreases |names|
  {
    if names != [] {
      var front, x := names[..|names| - 1], names[|names| - 1];
      assert names == front + [x];
      assert Distinct(front);
      assert x !in front;
      OthersDistinct(front, name);
      assert x !in Others(front, name);
    }
  }

  /**
   * A draw that `randint` and `sample` can make for `user`: a count between
   * `min(fmin, n)` and `min(fmax, n)` for the `n` other names, and that many
   * of them, taken from distinct positions.
   */
  predicate ValidDraw(names: seq<string>, fmin: int, fmax: int, p: Pick)
  {
    var others := Others(names, p.user);
    && p.user in names && others != []
    && Min(fmin, |others|) <= |p.selection| <= Min(fmax, |others|)
    && multiset(p.selection) <= multiset(others)
  }

  /** A draw for a user that has an entity in the store. */
  predicate ValidPick(names: seq<string>, fmin: int, fmax: int, users: map<string, seq<string>>, p: Pick)
  {
    p.user in users && ValidDraw(names, fmin, fmax, p)
  }

  /** A user never draws themself: every selected name is another of the names. */
  lemma DrawNeverSelf(names: seq<string>, fmin: int, fmax: int, p: Pick)
    requires ValidDraw(names, fmin, fmax, p)
    ensures forall f :: f in p.selection ==> f in names && f != p.user
  {
    forall f | f in p.selection ensures f in names && f != p.user {
      assert f in multiset(p.selection);
      assert f in multiset(Others(names, p.user));
    }
  }

  /** A selection drawn from duplicate-free names is duplicate-free. */
  lemma DrawDistinct(names: seq<string>, fmin: int, fmax: int, p: Pick)
    requires Distinct(names)
    requires ValidDraw(names, fmin, fmax, p)
    ensures Distinct(p.selection)
  {
    var others := Others(names, p.user);
    OthersDistinct(names, p.user);
    forall i, j | 0 <= i < j < |p.selection| ensures p.selection[i] != p.selection[j] {
      if p.selection[i] == p.selection[j] {
        RepeatedMultiplicity(p.selection, i, j);
        MultiplicityInDistinct(others, p.selection[i]);
        assert false;
      }
    }
  }

  lemma RepeatedMultiplicity(s: seq<string>, i: int, j: int)
    requires 0 <= i < j < |s| && s[i] == s[j]
    ensures multiset(s)[s[i]] >= 2
  {
    var x := s[i];
    assert s == s[..j] + [x] + s[j + 1..];
    assert x in s[..j];
    assert multiset(s) == multiset(s[..j]) + multiset{x} + multiset(s[j + 1..]);
  }

  lemma {:induction false} MultiplicityInDistinct(xs: seq<string>, x: string)
    requires Distinct(xs)
    ensures multiset(xs)[x] <= 1
    decreases |xs|
  {
    if xs != [] {
      var front := xs[..|xs| - 1];
      assert xs == front + [xs[|xs| - 1]];
      assert Distinct(front);
      MultiplicityInDistinct(front, x);
      if xs[|xs| - 1] == x {
        assert x !in front;
      }
    }
  }

  /** `random.sample(pool, k)`: `k` elements drawn from distinct positions of `pool`. */
  method Sample(pool: seq<string>, k: nat) returns (selection: seq<string>)
    requires k <= |pool|
    ensures |selection| == k
    ensures multiset(selection) <= multiset(pool)
  {
    selection := [];
    var rest := pool;
    while |selection| < k
      invariant |selection| + |rest| == |pool| && |selection| <= k
      invariant multiset(selection) + multiset(rest) == multiset(pool)
      decreases k - |selection|
    {
      var j :| 0 <= j < |rest|;
      assert rest == rest[..j] + [rest[j]] + rest[j + 1..];
      selection := selection + [rest[j]];
      rest := rest[..j] + rest[j + 1..];
    }
  }

  /**
   * Lines 64-65 for one user: `randint(min(fmin, n), min(fmax, n))` for the
   * `n` other names, then `sample` of that many. Either call raises on the
   * bounds it is given: `randint` on an empty range, `sample` on a negative
   * count.
   */
  method Draw(names: seq<string>, name: string, fmin: int, fmax: int) returns (r: Result<seq<string>, SeedError>)
    requires name in names && Others(names, name) != []
    ensures r.Success? ==> ValidDraw(names, fmin, fmax, Pick(name, r.value))
    ensures r.Failure? ==> r.error == FollowRange
    ensures r.Failure? ==> var n := |Others(names, name)|; Min(fmin, n) > Min(fmax, n) || fmin < 0
    ensures 0 <= fmin <= fmax ==> r.Success?
  {
    var others := Others(names, name);
    var lo, hi := Min(fmin, |others|), Min(fmax, |others|);
    if lo > hi {
      return Failure(FollowRange);
    }
    var k :| lo <= k <= hi;
    if k < 0 {
      return Failure(FollowRange);
    }
    var selection := Sample(others, k);
    return Success(selection);
  }

  predicate Covered(picks: seq<Pick>, u: string)
  {
    exists p :: p in picks && p.user == u
  }

  /** Every user looked up so far that has an entity and another name to follow got a draw. */
  predicate AllCovered(picks: seq<Pick>, names: seq<string>, users: map<string, seq<string>>, done: seq<string>)
  {
    forall u :: u in done && u in users && Others(names, u) != [] ==> Covered(picks, u)
  }

  lemma CoverSkip(picks: seq<Pick>, names: seq<string>, users: map<string, seq<string>>, done: seq<string>, x: string)
    requires AllCovered(picks, names, users, done)
    requires x !in users || Others(names, x) == []
    ensures AllCovered(picks, names, users, done + [x])
  {
  }

  lemma CoverPick(picks: seq<Pick>, names: seq<string>, users: map<string, seq<string>>, done: seq<string>, p: Pick)
    requires AllCovered(picks, names, users, done)
    ensures AllCovered(picks + [p], names, users, done + [p.user])
  {
    var picks' := picks + [p];
    assert p in picks';
    forall u | u in done + [p.user] && u in users && Others(names, u) != []
      ensures Covered(picks', u)
    {
      if u != p.user {
        var q :| q in picks && q.user == u;
        assert q in picks';
      }
    }
  }

  /** Users outside `touched` keep their follows list. */
  predicate Untouched(before: map<string, seq<string>>, after: map<string, seq<string>>, touched: seq<string>)
  {
    forall u :: u in after && u in before && u !in touched ==> after[u] == before[u]
  }

  /** No follow is lost. */
  predicate NoneLost(before: map<string, seq<string>>, after: map<string, seq<string>>)
  {
    forall u, f :: u in after && u in before && f in before[u] ==> f in after[u]
  }

  /** Every new follow is another of the seeded names. */
  predicate NewAreOthers(before: map<string, seq<string>>, after: map<string, seq<string>>, names: seq<string>)
  {
    forall u, f :: u in after && u in before && f in after[u] && f !in before[u] ==> f in names && f != u
  }

  /** Every rewritten list is sorted and duplicate-free. */
  predicate ChangedSorted(before: map<string, seq<string>>, after: map<string, seq<string>>)
  {
    forall u :: u in after && u in before && after[u] != before[u] ==> StrictlySorted(after[u])
  }

  /**
   * What `assign_follows` has done to the store once the names in `touched`
   * are processed: the same users, the others unchanged, no follow lost, every
   * new follow another of the seeded names, and every rewritten list sorted
   * and duplicate-free.
   */
  predicate FollowsGrown(before: map<string, seq<string>>, after: map<string, seq<string>>,
                         names: seq<string>, touched: seq<string>)
  {
    && after.Keys == before.Keys
    && Untouched(before, after, touched)
    && NoneLost(before, after)
    && NewAreOthers(before, after, names)
    && ChangedSorted(before, after)
  }

  /** The names a merge adds are drawn names, never the user. */
  lemma MergedFollowsNew(before: map<string, seq<string>>, cur: map<string, seq<string>>, names: seq<string>,
                         name: string, selection: seq<string>, after: map<string, seq<string>>)
    requires NewAreOthers(before, cur, names)
    requires name in cur && after == cur[name := MergeFollows(cur[name], selection)]
    requires forall f :: f in selection ==> f in names && f != name
    ensures NewAreOthers(before, after, names)
  {
    forall u, f | u in after && u in before && f in after[u] && f !in before[u] ensures f in names && f != u {
      if u != name {
        assert f in cur[u];
      } else if f !in cur[u] {
        assert f in selection;
      }
    }
  }

  /** A merge changes only the user it is for. */
  lemma MergedOthersKept(before: map<string, seq<string>>, cur: map<string, seq<string>>,
                         touched: seq<string>, name: string, selection: seq<string>, after: map<string, seq<string>>)
    requires Untouched(before, cur, touched)
    requires name in cur && after == cur[name := MergeFollows(cur[name], selection)]
    ensures Untouched(before, after, touched + [name])
  {
    forall u | u in after && u in before && u !in touched + [name] ensures after[u] == before[u] {
      assert u != name && u !in touched;
    }
  }

  /** A merge keeps every follow the user had. */
  lemma MergedNothingLost(before: map<string, seq<string>>, cur: map<string, seq<string>>,
                          name: string, selection: seq<string>, after: map<string, seq<string>>)
    requires NoneLost(before, cur)
    requires name in cur && after == cur[name := MergeFollows(cur[name], selection)]
    ensures NoneLost(before, after)
  {
    forall u, f | u in after && u in before && f in before[u] ensures f in after[u] {
      assert f in cur[u];
    }
  }

  /** Every list a merge leaves changed is strictly sorted. */
  lemma MergedSorted(before: map<string, seq<string>>, cur: map<string, seq<string>>,
                     name: string, selection: seq<string>, after: map<string, seq<string>>)
    requires ChangedSorted(before, cur)
    requires name in cur && after == cur[name := MergeFollows(cur[name], selection)]
    ensures ChangedSorted(before, after)
  {
    forall u | u in after && u in before && after[u] != before[u] ensures StrictlySorted(after[u]) {
      if u != name {
        assert after[u] == cur[u];
      }
    }
  }

  /** Storing one merged follows list keeps the guarantees. */
  lemma FollowsStep(before: map<string, seq<string>>, cur: map<string, seq<string>>, names: seq<string>,
                    touched: seq<string>, name: string, selection: seq<string>, after: map<string, seq<string>>)
    requires FollowsGrown(before, cur, names, touched)
    requires name in cur && after == cur[name := MergeFollows(cur[name], selection)]
    requires forall f :: f in selection ==> f in names && f != name
    ensures FollowsGrown(before, after, names, touched + [name])
  {
    assert after.Keys == cur.Keys;
    MergedOthersKept(before, cur, touched, name, selection, after);
    MergedNothingLost(before, cur, name, selection, after);
    MergedFollowsNew(before, cur, names, name, selection, after);
    MergedSorted(before, cur, name, selection, after);
  }

  lemma FollowsWiden(before: map<string, seq<string>>, after: map<string, seq<string>>, names: seq<string>,
                     t1: seq<string>, t2: seq<string>)
    requires FollowsGrown(before, after, names, t1)
    requires forall u :: u in t1 ==> u in t2
    ensures FollowsGrown(before, after, names, t2)
  {
  }

  /** The draws are all in the store: each selected name is followed by the user it was drawn for. */
  predicate PicksStored(picks: seq<Pick>, users: map<string, seq<string>>)
  {
    forall p, f :: p in picks && f in p.selection ==> p.user in users && f in users[p.user]
  }

  lemma PicksStoredStep(picks: seq<Pick>, cur: map<string, seq<string>>, name: string, selection: seq<string>)
    requires PicksStored(picks, cur)
    requires name in cur
    ensures PicksStored(picks + [Pick(name, selection)], cur[name := MergeFollows(cur[name], selection)])
  {
  }

  /**
   * The store after merging each draw, in order, into its user's follows
   * list; a draw for a user without an entity changes nothing.
   */
  function Applied(users: map<string, seq<string>>, picks: seq<Pick>): (r: map<string, seq<string>>)
    ensures r.Keys == users.Keys
  {
    if picks == [] then users
    else
      var prev := Applied(users, picks[..|picks| - 1]);
      var p := picks[|picks| - 1];
      if p.user in prev then prev[p.user := MergeFollows(prev[p.user], p.selection)] else prev
  }

  /** Appending the draw of the `i`-th name keeps every draw on a name looked up, one per name. */
  lemma AppliedStep(users: map<string, seq<string>>, picks: seq<Pick>, pick: Pick)
    ensures var prev := Applied(users, picks);
      Applied(users, picks + [pick]) == if pick.user in prev then prev[pick.user := MergeFollows(prev[pick.user], pick.selection)] else prev
  {
    assert (picks + [pick])[..|picks|] == picks;
  }

  lemma PickStep(names: seq<string>, picks: seq<Pick>, i: nat, pick: Pick)
    requires i < |names| && pick.user == names[i]
    requires forall p :: p in picks ==> p.user in names[..i]
    requires Distinct(names) ==> OnePickEach(picks)
    ensures forall p :: p in picks + [pick] ==> p.user in names[..i + 1]
    ensures Distinct(names) ==> OnePickEach(picks + [pick])
  {
    assert names[..i + 1] == names[..i] + [names[i]];
    if Distinct(names) {
      forall k | 0 <= k < |picks|
        ensures picks[k].user != pick.user
      {
        assert picks[k] in picks;
        var m :| 0 <= m < i && names[m] == picks[k].user;
      }
    }
  }

  /** At most one draw per user. */
  predicate OnePickEach(picks: seq<Pick>)
  {
    forall i, j :: 0 <= i < j < |picks| ==> picks[i].user != picks[j].user
  }

  /** A user without a draw keeps their follows list. */
  lemma {:induction false} AppliedUntouched(users: map<string, seq<string>>, picks: seq<Pick>, u: string)
    requires u in users
    requires forall i :: 0 <= i < |picks| ==> picks[i].user != u
    ensures Applied(users, picks)[u] == users[u]
  {
    if picks != [] {
      AppliedUntouched(users, picks[..|picks| - 1], u);
    }
  }

  /** With one draw per user, a drawn user's list is the merge of their old list with their draw. */
  lemma {:induction false} AppliedPick(users: map<string, seq<string>>, picks: seq<Pick>, i: nat)
    requires OnePickEach(picks)
    requires i < |picks| && picks[i].user in users
    ensures Applied(users, picks)[picks[i].user] == MergeFollows(users[picks[i].user], picks[i].selection)
  {
    var n := |picks| - 1;
    var front := picks[..n];
    var u := picks[i].user;
    if i == n {
      AppliedUntouched(users, front, u);
    } else {
      assert OnePickEach(front);
      assert front[i] == picks[i];
      AppliedPick(users, front, i);
    }
  }

  // ---------------------------------------------------------------------------
  // create_posts

  function Content(k: int, author: string): string
  {
    "Seed post " + IntToString(k) + " by " + author
  }

  /** `all_posts[i:i + b]` for i in range(0, |s|, b). */
  function Chunks(s: seq<Post>, b: nat): seq<seq<Post>>
    requires b > 0
    decreases |s|
  {
    if s == [] then []
    else if |s| <= b then [s]
    else [s[..b]] + Chunks(s[b..], b)
  }

  /** Every batch holds between 1 and `b` posts. */
  lemma {:induction false} ChunkSizes(s: seq<Post>, b: nat)
    requires b > 0
    ensures forall k :: 0 <= k < |Chunks(s, b)| ==> 0 < |Chunks(s, b)[k]| <= b
    decreases |s|
  {
    if |s| > b {
      ChunkSizes(s[b..], b);
      assert forall k :: 1 <= k < |Chunks(s, b)| ==> Chunks(s, b)[k] == Chunks(s[b..], b)[k - 1];
    }
  }

  function Flatten(cs: seq<seq<Post>>): seq<Post>
  {
    if cs == [] then [] else cs[0] + Flatten(cs[1..])
  }

  /** The batches put back together are all the posts, in order. */
  lemma {:induction false} ChunksFlatten(s: seq<Post>, b: nat)
    requires b > 0
    ensures Flatten(Chunks(s, b)) == s
    decreases |s|
  {
    if |s| > b {
      ChunksFlatten(s[b..], b);
      assert s == s[..b] + s[b..];
    }
  }

  /** There are `ceil(|s| / b)` batches, the `(|s| + b - 1) // b` the program prints. */
  lemma ChunksCount(s: seq<Post>, b: nat)
    requires b > 0
    ensures |Chunks(s, b)| == (|s| + b - 1) / b
  {
    var c := |Chunks(s, b)|;
    ChunkAt(s, b, c);
    if c > 0 {
      ChunkAt(s, b, c - 1);
    }
    CeilDiv(|s|, b, c);
  }

  /** `c` is the least count of `b`-sized slices covering `n` items: `c == (n + b - 1) // b`. */
  lemma CeilDiv(n: nat, b: nat, c: nat)
    requires b > 0 && n <= c * b
    requires c > 0 ==> (c - 1) * b < n
    ensures c == (n + b - 1) / b
  {
    if c == 0 {
      DivUnique(b - 1, b, 0);
    } else {
      assert c * b == (c - 1) * b + b;
      DivUnique(n + b - 1, b, c);
    }
  }

  /** Floor division pinned down by its bracket. */
  lemma DivUnique(x: int, b: int, c: int)
    requires b > 0 && c * b <= x < c * b + b
    ensures x / b == c
  {
    var q, r := x / b, x % b;
    assert x == q * b + r && 0 <= r < b;
    assert (c + 1) * b == c * b + b;
    assert (q + 1) * b == q * b + b;
    if q > c {
      MulMonotone(c + 1, q, b);
    } else if q < c {
      MulMonotone(q + 1, c, b);
    }
  }

  lemma MulMonotone(x: int, y: int, b: int)
    requires x <= y && b > 0
    ensures x * b <= y * b
  {
    assert y * b - x * b == (y - x) * b;
  }

  /** Batch `k` is the slice starting at `k * b`, and batches exist exactly below `|s|`. */
  lemma {:induction false} ChunkAt(s: seq<Post>, b: nat, k: nat)
    requires b > 0
    ensures k < |Chunks(s, b)| <==> k * b < |s|
    ensures k < |Chunks(s, b)| ==> Chunks(s, b)[k] == s[k * b..Min(k * b + b, |s|)]
    decreases k
  {
    if k > 0 && |s| > b {
      ChunkAt(s[b..], b, k - 1);
      var j := (k - 1) * b;
      assert k * b == j + b;
      ChunksTail(s, b, k);
      if k < |Chunks(s, b)| {
        ShiftedSlice(s, b, j);
      }
    } else if k > 0 {
      MulMonotone(1, k, b);
      assert |Chunks(s, b)| <= 1;
    }
  }

  lemma ChunksTail(s: seq<Post>, b: nat, k: nat)
    requires b > 0 && |s| > b && k > 0
    ensures |Chunks(s, b)| == |Chunks(s[b..], b)| + 1
    ensures k < |Chunks(s, b)| ==> Chunks(s, b)[k] == Chunks(s[b..], b)[k - 1]
  {
    var rest := Chunks(s[b..], b);
    assert Chunks(s, b) == [s[..b]] + rest;
  }

  lemma ShiftedSlice(s: seq<Post>, b: nat, j: nat)
    requires b <= |s| && j < |s| - b
    ensures s[b..][j..Min(j + b, |s| - b)] == s[j + b..Min(j + b + b, |s|)]
  {
  }

  /**
   * The posts written by the first `k` batches: batch `j` (from 1) is
   * `cs[j - 1]`, written when its put succeeds.
   */
  function Stored(cs: seq<seq<Post>>, k: nat, putOk: nat -> bool): seq<Post>
    requires k <= |cs|
  {
    if k == 0 then [] else Stored(cs, k - 1, putOk) + (if putOk(k) then cs[k - 1] else [])
  }

  /** The posts a non-dry run writes, batch after batch. */
  function Written(all: seq<Post>, b: nat, putOk: nat -> bool): seq<Post>
    requires b > 0
  {
    Stored(Chunks(all, b), |Chunks(all, b)|, putOk)
  }

  /** No posts, no writes. */
  lemma WrittenNothing(b: nat, putOk: nat -> bool)
    requires b > 0
    ensures Written([], b, putOk) == []
  {
    ChunksCount([], b);
  }

  lemma {:induction false} StoredBound(cs: seq<seq<Post>>, k: nat, putOk: nat -> bool)
    requires k <= |cs|
    ensures |Stored(cs, k, putOk)| <= |Flatten(cs[..k])|
    ensures (forall j :: 1 <= j <= k ==> putOk(j)) ==> Stored(cs, k, putOk) == Flatten(cs[..k])
    decreases k
  {
    if k > 0 {
      StoredBound(cs, k - 1, putOk);
      FlattenSnoc(cs[..k - 1], cs[k - 1]);
      assert cs[..k] == cs[..k - 1] + [cs[k - 1]];
    }
  }

  /**
   * Batches that fail are skipped and later ones still go out: the count is at
   * most the number of posts, and reaches it when every batch succeeds.
   */
  lemma WrittenBound(all: seq<Post>, b: nat, putOk: nat -> bool)
    requires b > 0
    ensures |Written(all, b, putOk)| <= |all|
    ensures (forall j :: 1 <= j <= |Chunks(all, b)| ==> putOk(j)) ==> Written(all, b, putOk) == all
  {
    var cs := Chunks(all, b);
    StoredBound(cs, |cs|, putOk);
    ChunksFlatten(all, b);
    assert cs[..|cs|] == cs;
  }

  /** The loop's slice at offset `i == k * b` is batch `k`, numbered `k + 1`. */
  lemma BatchStep(s: seq<Post>, b: nat, k: nat, i: int)
    requires b > 0 && i == k * b && k < |Chunks(s, b)|
    ensures 0 <= i < |s|
    ensures s[i..Min(i + b, |s|)] == Chunks(s, b)[k]
    ensures i / b + 1 == k + 1
    ensures i + b == (k + 1) * b
    ensures k + 1 < |Chunks(s, b)| <==> i + b < |s|
  {
    ChunkAt(s, b, k);
    ChunkAt(s, b, k + 1);
    DivUnique(i, b, k);
  }

  lemma {:induction false} FlattenSnoc(cs: seq<seq<Post>>, c: seq<Post>)
    ensures Flatten(cs + [c]) == Flatten(cs) + c
    decreases |cs|
  {
    if cs == [] {
      assert [c][1..] == [];
    } else {
      assert (cs + [c])[1..] == cs[1..] + [c];
      FlattenSnoc(cs[1..], c);
    }
  }

  /** What the source promises about one post: author, content and timestamp. */
  predicate PostAt(names: seq<string>, base: int, p: Post, i: int)
  {
    && p.author in names
    && p.content == Content(i + 1, p.author)
    && p.created == base - i
  }

  /** The generated posts, in order, have strictly decreasing timestamps. */
  lemma TimestampsDecrease(names: seq<string>, base: int, all: seq<Post>)
    requires forall i :: 0 <= i < |all| ==> PostAt(names, base, all[i], i)
    ensures forall i, j :: 0 <= i < j < |all| ==> all[i].created > all[j].created
  {
    forall i, j | 0 <= i < j < |all| ensures all[i].created > all[j].created {
      assert PostAt(names, base, all[i], i) && PostAt(names, base, all[j], j);
    }
  }

  /** The post list is built in memory: post i goes to a random author, stamped `base - i`. */
  method BuildPosts(names: seq<string>, total: nat, base: int) returns (all: seq<Post>)
    requires names != []
    ensures |all| == total
    ensures forall i :: 0 <= i < |all| ==> PostAt(names, base, all[i], i)
  {
    all := [];
    for i := 0 to total
      invariant |all| == i
      invariant forall k :: 0 <= k < i ==> PostAt(names, base, all[k], k)
    {
      assert names[0] in names;
      var author :| author in names;
      all := all + [Post(author, Content(i + 1, author), base - i)];
      assert PostAt(names, base, all[i], i);
    }
  }

  // ---------------------------------------------------------------------------
  // The store

  class Datastore {
    /** `User` entities: name to follows list. */
    var users: map<string, seq<string>>
    /** `Post` entities written so far, in write order. */
    var posts: seq<Post>

    constructor(users0: map<string, seq<string>>, posts0: seq<Post>)
      ensures users == users0 && posts == posts0
    {
      users := users0;
      posts := posts0;
    }

    /**
     * `ensure_users`: creates each missing name with no follows and counts it;
     * a dry run writes nothing and counts every missing occurrence.
     */
    method EnsureUsers(names: seq<string>, dry: bool) returns (created: nat)
      modifies this
      ensures posts == old(posts)
      ensures users == if dry then old(users) else AddUsers(old(users), names)
      ensures created == if dry then MissingCount(old(users), names) else NewCount(old(users), names)
    {
      created := 0;
      for i := 0 to |names|
        invariant posts == old(posts)
        invariant users == if dry then old(users) else AddUsers(old(users), names[..i])
        invariant created == if dry then MissingCount(old(users), names[..i]) else NewCount(old(users), names[..i])
      {
        assert names[..i + 1][..i] == names[..i];
        var name := names[i];
        if name !in users {
          if !dry {
            users := users[name := []];
          }
          created := created + 1;
        }
      }
      assert names[..|names|] == names;
    }

    /**
     * `assign_follows`: for each user present with at least one other name,
     * draws a count in `[min(fmin, n), min(fmax, n)]` and that many other names,
     * and stores the sorted union with the existing follows. `ok` is false when
     * a draw raises, which aborts the run after the users already updated.
     */
    method AssignFollows(names: seq<string>, fmin: int, fmax: int, dry: bool) returns (ok: bool, picks: seq<Pick>)
      modifies this
      ensures posts == old(posts)
      ensures FollowsGrown(old(users), users, names, names)
      ensures dry ==> users == old(users)
      ensures forall p :: p in picks ==> ValidPick(names, fmin, fmax, old(users), p)
      ensures !dry ==> PicksStored(picks, users)
      ensures ok ==> AllCovered(picks, names, old(users), names)
      ensures !dry ==> users == Applied(old(users), picks)
      ensures Distinct(names) ==> OnePickEach(picks)
      ensures 0 <= fmin <= fmax ==> ok
    {
      ok := true;
      picks := [];
      for i := 0 to |names|
        invariant posts == old(posts)
        invariant FollowsGrown(old(users), users, names, names[..i])
        invariant dry ==> users == old(users)
        invariant forall p :: p in picks ==> ValidPick(names, fmin, fmax, old(users), p)
        invariant !dry ==> PicksStored(picks, users)
        invariant AllCovered(picks, names, old(users), names[..i])
        invariant !dry ==> users == Applied(old(users), picks)
        invariant forall p :: p in picks ==> p.user in names[..i]
        invariant Distinct(names) ==> OnePickEach(picks)
      {
        assert names[..i + 1] == names[..i] + [names[i]];
        FollowsWiden(old(users), users, names, names[..i], names);
        var name := names[i];
        var others := Others(names, name);
        if name !in users || others == [] {
          CoverSkip(picks, names, old(users), names[..i], name);
          FollowsWiden(old(users), users, names, names[..i], names[..i + 1]);
          continue;
        }
        var drawn := Draw(names, name, fmin, fmax);
        if drawn.Failure? {
          ok := false;
          return;
        }
        var selection := drawn.value;
        var pick := Pick(name, selection);
        DrawNeverSelf(names, fmin, fmax, pick);
        assert ValidPick(names, fmin, fmax, old(users), pick);
        CoverPick(picks, names, old(users), names[..i], pick);
        if !dry {
          var merged := users[name := MergeFollows(users[name], selection)];
          FollowsStep(old(users), users, names, names[..i], name, selection, merged);
          PicksStoredStep(picks, users, name, selection);
          AppliedStep(old(users), picks, pick);
          users := merged;
        } else {
          FollowsWiden(old(users), users, names, names[..i], names[..i + 1]);
        }
        PickStep(names, picks, i, pick);
        picks := picks + [pick];
      }
      assert names[..|names|] == names;
    }

    /**
     * The write loop of `create_posts`: the slices `all[i:i + b]` for i in
     * range(0, |all|, b), batch `i // b + 1` stored when its put succeeds.
     */
    method WriteBatches(all: seq<Post>, b: nat, putOk: nat -> bool) returns (created: nat)
      requires b > 0
      modifies this
      ensures users == old(users)
      ensures posts == old(posts) + Written(all, b, putOk)
      ensures created == |Written(all, b, putOk)|
    {
      created := 0;
      var i := 0;
      ghost var cs := Chunks(all, b);
      ghost var k: nat := 0;
      ChunkAt(all, b, 0);
      while i < |all|
        invariant i == k * b
        invariant k <= |cs|
        invariant k < |cs| <==> i < |all|
        invariant users == old(users)
        invariant posts == old(posts) + Stored(cs, k, putOk)
        invariant created == |Stored(cs, k, putOk)|
      {
        BatchStep(all, b, k, i);
        var batch := all[i..Min(i + b, |all|)];
        var batchNum := i / b + 1;
        if putOk(batchNum) {
          posts := posts + batch;
          created := created + |batch|;
        }
        i := i + b;
        k := k + 1;
      }
    }

    /**
     * `create_posts`: builds the posts, then (unless dry) writes them in
     * consecutive batches of `batchSize`; `putOk(n)` says whether the put of
     * batch `n` (from 1) succeeds. The result is the number of posts written,
     * or the posts planned in a dry run.
     */
    method CreatePosts(names: seq<string>, total: int, dry: bool, batchSize: int, base: int, putOk: nat -> bool)
      returns (r: Result<nat, SeedError>, all: seq<Post>)
      modifies this
      ensures users == old(users)
      ensures names == [] || total <= 0 ==> r == Success(0) && all == [] && posts == old(posts)
      ensures names != [] && total > 0 ==>
        |all| == total && forall i :: 0 <= i < |all| ==> PostAt(names, base, all[i], i)
      ensures names != [] && total > 0 && dry ==> r == Success(total) && posts == old(posts)
      ensures names != [] && total > 0 && !dry && batchSize == 0 ==>
        r == Failure(ZeroBatchSize) && posts == old(posts)
      ensures names != [] && total > 0 && !dry && batchSize < 0 ==> r == Success(0) && posts == old(posts)
      ensures names != [] && total > 0 && !dry && batchSize > 0 ==>
        posts == old(posts) + Written(all, batchSize, putOk)
        && r == Success(|Written(all, batchSize, putOk)|)
    {
      all := [];
      if names == [] || total <= 0 {
        return Success(0), all;
      }
      all := BuildPosts(names, total, base);
      if dry {
        return Success(total), all;
      }
      if batchSize == 0 {
        return Failure(ZeroBatchSize), all;
      }
      if batchSize < 0 {
        return Success(0), all;
      }
      var created := WriteBatches(all, batchSize, putOk);
      r := Success(created);
    }

    /**
     * `main`: users `prefix1..prefixN`, then their follows, then the posts.
     * A draw that raises aborts the run before any post is built. `picks`
     * are the draws made and `all` the posts built, in order.
     */
    method Run(prefix: string, userCount: int, postCount: int, fmin: int, fmax: int, batchSize: int,
               dry: bool, base: int, putOk: nat -> bool)
      returns (r: Result<Report, SeedError>, ghost picks: seq<Pick>, ghost all: seq<Post>)
      modifies this
      ensures dry ==> users == old(users) && posts == old(posts)
      ensures !dry ==> forall u :: u in users <==> u in old(users) || u in SeedNames(prefix, userCount)
      ensures !dry ==> users == Applied(AddUsers(old(users), SeedNames(prefix, userCount)), picks)
      ensures OnePickEach(picks)
      ensures var seeded := if dry then old(users) else AddUsers(old(users), SeedNames(prefix, userCount));
        && (forall p :: p in picks ==> ValidPick(SeedNames(prefix, userCount), fmin, fmax, seeded, p))
        && (r.Success? ==> AllCovered(picks, SeedNames(prefix, userCount), seeded, SeedNames(prefix, userCount)))
      ensures r.Success? ==> r.value.newUsers == |NewNames(old(users), SeedNames(prefix, userCount))|
      ensures r.Success? ==> |all| == (if userCount > 0 && postCount > 0 then postCount else 0)
      ensures r.Success? ==> forall i :: 0 <= i < |all| ==> PostAt(SeedNames(prefix, userCount), base, all[i], i)
      ensures r.Success? && !dry && batchSize > 0 ==> posts == old(posts) + Written(all, batchSize, putOk)
      ensures r.Success? ==> r.value.createdPosts <= if postCount > 0 then postCount else 0
      ensures r.Success? && !dry ==> |posts| == |old(posts)| + r.value.createdPosts
      ensures r.Success? && dry ==> r.value.createdPosts == |all|
      ensures r.Success? && !dry ==> posts == old(posts) + (if batchSize > 0 then Written(all, batchSize, putOk) else [])
      ensures r.Success? && !dry ==> r.value.createdPosts == if batchSize > 0 then |Written(all, batchSize, putOk)| else 0
      ensures r.Failure? ==> posts == old(posts)
      ensures r.Failure? ==> r.error == FollowRange || r.error == ZeroBatchSize
      ensures r == Failure(FollowRange) ==> !(0 <= fmin <= fmax)
      ensures r == Failure(ZeroBatchSize) ==> !dry && batchSize == 0 && userCount > 0 && postCount > 0
      ensures 0 <= fmin <= fmax && (dry || batchSize != 0) ==> r.Success?
      ensures 0 <= fmin <= fmax && !dry && batchSize == 0 && userCount > 0 && postCount > 0 ==> r == Failure(ZeroBatchSize)
    {
      all := [];
      var names := SeedNames(prefix, userCount);
      SeedNamesDistinct(prefix, userCount);
      DryCountMatches(users, names);
      NewCountIsNewNames(users, names);
      var newUsers := EnsureUsers(names, dry);
      ghost var keys := users.Keys;
      assert !dry ==> forall u :: u in keys <==> u in old(users) || u in names;
      var ok, drawn := AssignFollows(names, fmin, fmax, dry);
      picks := drawn;
      assert users.Keys == keys;
      if !ok {
        return Failure(FollowRange), picks, all;
      }
      var created, built := CreatePosts(names, postCount, dry, batchSize, base, putOk);
      all := built;
      if created.Failure? {
        return Failure(created.error), picks, all;
      }
      if names != [] && postCount > 0 && !dry && batchSize > 0 {
        WrittenBound(all, batchSize, putOk);
      } else if !dry && batchSize > 0 {
        WrittenNothing(batchSize, putOk);
      }
      r := Success(Report(newUsers, created.value));
    }
  }
}
