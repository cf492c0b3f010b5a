/**
 * The new `visitas` arrays built by the screen's handlers
 * (frontend/src/pages/Visitas.jsx:110-129): insertion with a fresh id,
 * update by id, and deletion by id.
 */
module RecordStore {
  import opened Sequences
  import opened VisitModel

  /** `visitas.map(v => v.id)`. */
  function Ids(vs: seq<Visit>): (ids: seq<int>)
    ensures |ids| == |vs|
    ensures forall i :: 0 <= i < |vs| ==> ids[i] == vs[i].id
  {
    seq(|vs|, i requires 0 <= i < |vs| => vs[i].id)
  }

  /** No two stored visits share an id. */
  predicate UniqueIds(vs: seq<Visit>)
  {
    forall i, j :: 0 <= i < j < |vs| ==> vs[i].id != vs[j].id
  }

  /** The largest of a non-empty list of ids. */
  function MaxId(ids: seq<int>): (m: int)
    requires |ids| > 0
    ensures m in ids
    ensures forall x :: x in ids ==> x <= m
    decreases |ids|
  {
    if |ids| == 1 then ids[0]
    else
      var m := MaxId(ids[1..]);
      assert ids == [ids[0]] + ids[1..];
      if ids[0] >= m then ids[0] else m
  }

  /** The id a new visit receives: one more than the largest stored id, so
      larger than every stored id. On an empty store the source produces no
      integer (see `JsNextId`); here the id is 1, the evidently intended
      value, so that the first visit gets id 1 and ids stay unique. */
  function NextId(vs: seq<Visit>): (n: int)
    ensures forall v :: v in vs ==> v.id < n
    ensures vs != [] ==> exists v :: v in vs && v.id == n - 1
    ensures vs == [] ==> n == 1
  {
    if vs == [] then 1
    else
      var m := MaxId(Ids(vs));
      assert forall v :: v in vs ==> v.id in Ids(vs) by {
        forall v | v in vs ensures v.id in Ids(vs) {
          var i :| 0 <= i < |vs| && vs[i] == v;
          assert Ids(vs)[i] == v.id;
        }
      }
      var i :| 0 <= i < |vs| && Ids(vs)[i] == m;
      assert vs[i] in vs && vs[i].id == m;
      m + 1
  }

  // ---------------------------------------------------------------------
  // The id as the source computes it: `Math.max(...ids) + 1` on JavaScript
  // numbers, where the maximum of no numbers is -Infinity.
  // ---------------------------------------------------------------------

  /** The JavaScript numbers `Math.max` can return here. */
  datatype ExtInt = NegInfinity | Finite(n: int)

  function ExtMax(a: ExtInt, b: ExtInt): ExtInt
  {
    match (a, b)
    case (NegInfinity, _) => b
    case (_, NegInfinity) => a
    case (Finite(x), Finite(y)) => if x >= y then a else b
  }

  /** `Math.max(...ids)`. */
  function JsMax(ids: seq<int>): ExtInt
    decreases |ids|
  {
    if ids == [] then NegInfinity else ExtMax(Finite(ids[0]), JsMax(ids[1..]))
  }

  /** `x + 1`; -Infinity + 1 is -Infinity. */
  function JsAddOne(x: ExtInt): ExtInt
  {
    match x
    case NegInfinity => NegInfinity
    case Finite(n) => Finite(n + 1)
  }

  /** `Math.max(...visitas.map(v => v.id)) + 1`, as written. */
  function JsNextId(vs: seq<Visit>): ExtInt
  {
    JsAddOne(JsMax(Ids(vs)))
  }

  /** On a non-empty list `Math.max` is the integer maximum. */
  lemma {:induction false} JsMaxIsMaxId(ids: seq<int>)
    requires |ids| > 0
    ensures JsMax(ids) == Finite(MaxId(ids))
    decreases |ids|
  {
    if |ids| > 1 {
      JsMaxIsMaxId(ids[1..]);
    }
  }

  /** On a non-empty store the id the source computes is `NextId`. */
  lemma JsNextIdAgrees(vs: seq<Visit>)
    requires vs != []
    ensures JsNextId(vs) == Finite(NextId(vs))
  {
    JsMaxIsMaxId(Ids(vs));
  }

  /** On an empty store the source gives the new visit the id -Infinity,
      not 1. */
  lemma JsNextIdOnEmptyStore()
    ensures JsNextId([]) == NegInfinity
    ensures JsNextId([]) != Finite(NextId([]))
  {
  }

  // ---------------------------------------------------------------------
  // Insert
  // ---------------------------------------------------------------------

  /** `[{...visitaData, id: NextId, googleEventId}, ...visitas]`: the new visit
      carries the draft's fields, the next id and the given event id, and is
      put in front of the unchanged stored visits. */
  function Inserted(vs: seq<Visit>, draft: Form, eventId: string): (r: seq<Visit>)
    ensures |r| == |vs| + 1
    ensures r[0].form == draft && r[0].googleEventId == eventId
    ensures forall v :: v in vs ==> v.id < r[0].id
    ensures r[1..] == vs
  {
    [Visit(NextId(vs), draft, eventId)] + vs
  }

  /** Inserting keeps ids unique. */
  lemma InsertKeepsUniqueIds(vs: seq<Visit>, draft: Form, eventId: string)
    requires UniqueIds(vs)
    ensures UniqueIds(Inserted(vs, draft, eventId))
  {
    var r := Inserted(vs, draft, eventId);
    forall i, j | 0 <= i < j < |r| ensures r[i].id != r[j].id {
      if i == 0 {
        assert r[j] == vs[j - 1];
        assert r[j] in vs;
      } else {
        assert r[i] == vs[i - 1] && r[j] == vs[j - 1];
      }
    }
  }

  /** On a non-empty store the new id is the largest stored id plus one,
      which is what the source computes. */
  lemma InsertOnNonEmptyStore(vs: seq<Visit>, draft: Form, eventId: string)
    requires vs != []
    ensures Inserted(vs, draft, eventId)[0].id == MaxId(Ids(vs)) + 1
    ensures JsNextId(vs) == Finite(Inserted(vs, draft, eventId)[0].id)
  {
    JsNextIdAgrees(vs);
    var m := MaxId(Ids(vs));
    var n := NextId(vs);
    var v :| v in vs && v.id == n - 1;
    var i :| 0 <= i < |vs| && vs[i] == v;
    assert Ids(vs)[i] == n - 1;
    assert n - 1 <= m;
    var j :| 0 <= j < |vs| && Ids(vs)[j] == m;
    assert vs[j] in vs;
  }

  // ---------------------------------------------------------------------
  // Update
  // ---------------------------------------------------------------------

  /** `visitas.map(v => v.id === target.id ? {...draft, id: target.id} : v)`,
      where the draft was copied from `target` and so also carries its
      calendar event id. */
  function Updated(vs: seq<Visit>, target: Visit, draft: Form): (r: seq<Visit>)
    ensures |r| == |vs|
    ensures Ids(r) == Ids(vs)
    ensures forall i :: 0 <= i < |vs| && vs[i].id != target.id ==> r[i] == vs[i]
    ensures forall i :: 0 <= i < |vs| && vs[i].id == target.id ==>
      r[i].form == draft && r[i].googleEventId == target.googleEventId
  {
    seq(|vs|, i requires 0 <= i < |vs| =>
      if vs[i].id == target.id then Visit(target.id, draft, target.googleEventId) else vs[i])
  }

  /** Updating keeps ids unique. */
  lemma UpdateKeepsUniqueIds(vs: seq<Visit>, target: Visit, draft: Form)
    requires UniqueIds(vs)
    ensures UniqueIds(Updated(vs, target, draft))
  {
    var r := Updated(vs, target, draft);
    forall i, j | 0 <= i < j < |r| ensures r[i].id != r[j].id {
      assert Ids(r)[i] == Ids(vs)[i] && Ids(r)[j] == Ids(vs)[j];
    }
  }

  /** With unique ids, updating a stored visit replaces that one position
      and nothing else. */
  lemma UpdateReplacesOne(vs: seq<Visit>, k: int, draft: Form)
    requires UniqueIds(vs) && 0 <= k < |vs|
    ensures Updated(vs, vs[k], draft) == vs[k := Visit(vs[k].id, draft, vs[k].googleEventId)]
  {
  }

  /** Saving an edited visit whose draft was not changed leaves the store as it was. */
  lemma UpdateWithUnchangedDraft(vs: seq<Visit>, target: Visit)
    requires UniqueIds(vs) && target in vs
    ensures Updated(vs, target, target.form) == vs
  {
    var k :| 0 <= k < |vs| && vs[k] == target;
    UpdateReplacesOne(vs, k, target.form);
  }

  /** Updating an id that is not stored changes nothing. */
  lemma UpdateAbsentIsNoOp(vs: seq<Visit>, target: Visit, draft: Form)
    requires forall v :: v in vs ==> v.id != target.id
    ensures Updated(vs, target, draft) == vs
  {
  }

  // ---------------------------------------------------------------------
  // Delete
  // ---------------------------------------------------------------------

  /** The array `handleSaveVisita` stores: with an editing target its
      visits take the draft, otherwise the draft is inserted under a fresh
      id. */
  function Saved(vs: seq<Visit>, target: Option<Visit>, draft: Form, eventId: string): seq<Visit>
  {
    if target.Some? then Updated(vs, target.value, draft) else Inserted(vs, draft, eventId)
  }

  /** Saving, in either mode, keeps ids unique. */
  lemma SaveKeepsUniqueIds(vs: seq<Visit>, target: Option<Visit>, draft: Form, eventId: string)
    requires UniqueIds(vs)
    ensures UniqueIds(Saved(vs, target, draft, eventId))
  {
    if target.Some? {
      UpdateKeepsUniqueIds(vs, target.value, draft);
    } else {
      InsertKeepsUniqueIds(vs, draft, eventId);
    }
  }

  /** `visitas.filter(v => v.id !== id)`: exactly the visits with another id
      remain, in their order. */
  function Removed(vs: seq<Visit>, id: int): (r: seq<Visit>)
    ensures forall v :: v in r <==> v in vs && v.id != id
    ensures forall v :: multiset(r)[v] == if v.id != id then multiset(vs)[v] else 0
    ensures IsSubsequence(r, vs)
    ensures (forall v :: v in vs ==> v.id != id) ==> r == vs
  {
    KeepCounts(vs, (v: Visit) => v.id != id);
    KeepIsSubsequence(vs, (v: Visit) => v.id != id);
    if forall v :: v in vs ==> v.id != id then
      KeepAll(vs, (v: Visit) => v.id != id);
      Keep(vs, (v: Visit) => v.id != id)
    else
      Keep(vs, (v: Visit) => v.id != id)
  }

  /** The first visit stays exactly when its id is another one. */
  lemma RemovedCons(x: Visit, vs: seq<Visit>, id: int)
    ensures Removed([x] + vs, id) == if x.id != id then [x] + Removed(vs, id) else Removed(vs, id)
  {
    KeepCons(x, vs, (v: Visit) => v.id != id);
  }

  /** The visits after the first of a list with unique ids have unique ids. */
  lemma TailKeepsUniqueIds(vs: seq<Visit>)
    requires UniqueIds(vs) && vs != []
    ensures UniqueIds(vs[1..])
  {
    var rest := vs[1..];
    forall i, j | 0 <= i < j < |rest| ensures rest[i].id != rest[j].id {
      assert rest[i] == vs[i + 1] && rest[j] == vs[j + 1];
    }
  }

  /** Only position `k` of `vs` carries the id `vs[k].id`. */
  predicate IdOnlyAt(vs: seq<Visit>, k: int)
    requires 0 <= k < |vs|
  {
    forall j :: 0 <= j < |vs| && j != k ==> vs[j].id != vs[k].id
  }

  /** Deleting an id that only position `k` carries removes exactly that visit. */
  lemma RemoveDropsOne(vs: seq<Visit>, k: int)
    requires 0 <= k < |vs| && IdOnlyAt(vs, k)
    ensures Removed(vs, vs[k].id) == vs[..k] + vs[k + 1..]
  {
    var id := vs[k].id;
    KeepDropsOne(vs, k, (v: Visit) => v.id != id);
  }

  /** With unique ids, deleting a stored id removes exactly that one visit,
      so the store shrinks by one. */
  lemma RemoveUniqueDropsOne(vs: seq<Visit>, k: int)
    requires UniqueIds(vs) && 0 <= k < |vs|
    ensures Removed(vs, vs[k].id) == vs[..k] + vs[k + 1..]
    ensures |Removed(vs, vs[k].id)| == |vs| - 1
  {
    RemoveDropsOne(vs, k);
  }

  /** A subsequence of visits with unique ids has unique ids. */
  lemma {:induction false} SubsequenceKeepsUniqueIds(xs: seq<Visit>, ys: seq<Visit>)
    requires IsSubsequence(xs, ys) && UniqueIds(ys)
    ensures UniqueIds(xs)
    decreases |ys|
  {
    if xs != [] {
      var ytail := ys[1..];
      TailKeepsUniqueIds(ys);
      if xs[0] == ys[0] && IsSubsequence(xs[1..], ytail) {
        SubsequenceKeepsUniqueIds(xs[1..], ytail);
        SubsequenceMembers(xs[1..], ytail);
        forall i, j | 0 <= i < j < |xs| ensures xs[i].id != xs[j].id {
          if i == 0 {
            assert xs[j] == xs[1..][j - 1];
            assert xs[j] in xs[1..];
            var m :| 0 <= m < |ytail| && ytail[m] == xs[j];
            assert ys[m + 1] == xs[j];
          } else {
            assert xs[i] == xs[1..][i - 1] && xs[j] == xs[1..][j - 1];
          }
        }
      } else {
        SubsequenceKeepsUniqueIds(xs, ytail);
      }
    }
  }

  /** Deleting keeps ids unique. */
  lemma RemoveKeepsUniqueIds(vs: seq<Visit>, id: int)
    requires UniqueIds(vs)
    ensures UniqueIds(Removed(vs, id))
  {
    SubsequenceKeepsUniqueIds(Removed(vs, id), vs);
  }
}
