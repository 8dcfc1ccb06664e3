/**
  The direct-rendering buffer macros (inc/plugin/mfw_gst_utils.h, BM_GET_BUFFER and those after it).

  A buffer handed to the decoder carries two references: one for the picture to be shown, marked by the flag
  `notRender`, and one for the decoder's own use, marked by `refed`.  Showing or rejecting the picture gives up
  the first, releasing the buffer the second.
*/
module BufferRefs {
  import opened Helpers

  type Id = nat

  /** `refs` are the references the macros still owe; the last three fields count what has happened. */
  datatype Buffer = Buffer(data: int, notRender: bool, refed: bool, refs: int, gets: nat, pushes: nat, unrefs: nat)

  datatype Manager = Manager(list: seq<Id>, buffers: map<Id, Buffer>)

  // ---------- What the macros compute ----------

  /** The first listed buffer with this data. */
  function Find(m: Manager, data: int): Option<Id> {
    FindIn(m.list, m.buffers, data)
  }

  function FindIn(list: seq<Id>, buffers: map<Id, Buffer>, data: int): (r: Option<Id>)
    ensures r.Some? ==> r.value in list && r.value in buffers && buffers[r.value].data == data
    decreases |list|
  {
    if list == [] then None
    else if list[0] in buffers && buffers[list[0]].data == data then Some(list[0])
    else FindIn(list[1..], buffers, data)
  }

  /** g_slist_remove */
  function Remove(list: seq<Id>, b: Id): seq<Id>
    decreases |list|
  {
    if list == [] then [] else if list[0] == b then list[1..] else [list[0]] + Remove(list[1..], b)
  }

  function Flagged(b: Buffer): bool {
    b.notRender || b.refed
  }

  /** A buffer after its flags have changed: without flags it leaves the list. */
  function Put(m: Manager, id: Id, b: Buffer): Manager {
    Manager(if Flagged(b) then m.list else Remove(m.list, id), m.buffers[id := b])
  }

  /** BM_GET_BUFFER, with the buffer the pad has allocated; the other fields of the record are its history. */
  function Get(m: Manager, id: Id, data: int): Manager {
    var before := if id in m.buffers then m.buffers[id] else Buffer(data, false, false, 0, 0, 0, 0);
    Manager(m.list + [id],
            m.buffers[id := before.(data := data, notRender := true, refed := true, refs := before.refs + 2,
                                    gets := before.gets + 1)])
  }

  function Unref(b: Buffer): Buffer {
    b.(refs := b.refs - 1, unrefs := b.unrefs + 1)
  }

  /** BM_RELEASE_BUFFER: a second release gives up the reference for showing. */
  function Released(b: Buffer): Buffer {
    if b.refed then Unref(b.(refed := false)) else Unref(b.(notRender := false))
  }

  /** BM_REJECT_BUFFER */
  function Rejected(b: Buffer): Buffer {
    if b.notRender then Unref(b.(notRender := false)) else b
  }

  /** BM_RENDER_BUFFER: the reference goes to the pad. */
  function Rendered(b: Buffer): Buffer {
    if b.notRender then b.(notRender := false, refs := b.refs - 1, pushes := b.pushes + 1) else b
  }

  /** What BM_CLEAN_LIST does to one buffer. */
  function Cleaned(b: Buffer): Buffer {
    var c := if b.notRender then Unref(b.(notRender := false)) else b;
    if c.refed then Unref(c.(refed := false)) else c
  }

  datatype Call = GetBuffer(id: Id, data: int) | Release(data: int) | Reject(data: int) | Render(data: int) | Clean

  predicate OnBuffer(c: Call) {
    c.Release? || c.Reject? || c.Render?
  }

  function Act(c: Call, b: Buffer): Buffer
    requires OnBuffer(c)
  {
    match c
    case Release(_) => Released(b)
    case Reject(_) => Rejected(b)
    case Render(_) => Rendered(b)
  }

  function CleanFrom(m: Manager): Manager
    decreases |m.list|
  {
    if m.list == [] then m
    else
      var id := m.list[0];
      CleanFrom(Manager(m.list[1..], if id in m.buffers then m.buffers[id := Cleaned(m.buffers[id])] else m.buffers))
  }

  function Step(m: Manager, c: Call): Manager {
    match c
    case GetBuffer(id, data) => Get(m, id, data)
    case Clean => CleanFrom(m)
    case _ =>
      var found := Find(m, c.data);
      if found.None? then m else Put(m, found.value, Act(c, m.buffers[found.value]))
  }

  // ---------- The invariant ----------

  function FlagCount(b: Buffer): nat {
    (if b.notRender then 1 else 0) + if b.refed then 1 else 0
  }

  /** The flags say what is owed; every reference taken was pushed, unreferenced or is owed; none is pushed twice. */
  predicate BufferOk(b: Buffer) {
    && b.refs == FlagCount(b)
    && 2 * b.gets == b.pushes + b.unrefs + b.refs
    && b.pushes + (if b.notRender then 1 else 0) <= b.gets
  }

  /** A buffer is listed, once, exactly while something is owed for it. */
  ghost predicate Inv(m: Manager) {
    && Distinct(m.list)
    && (forall id :: id in m.buffers ==> BufferOk(m.buffers[id]))
    && (forall id :: id in m.list <==> id in m.buffers && m.buffers[id].refs != 0)
  }

  lemma {:induction false} RemoveExactly(list: seq<Id>, b: Id)
    requires Distinct(list)
    ensures Distinct(Remove(list, b)) && forall x :: x in Remove(list, b) <==> x in list && x != b
    decreases |list|
  {
    if list == [] {
    } else {
      DistinctParts(list);
      if list[0] != b {
        RemoveExactly(list[1..], b);
        assert Remove(list, b)[1..] == Remove(list[1..], b);
        DistinctParts(Remove(list, b));
      }
    }
  }

  lemma ActKeepsBuffer(c: Call, b: Buffer)
    requires OnBuffer(c) && BufferOk(b) && b.refs != 0
    ensures BufferOk(Act(c, b)) && Act(c, b).data == b.data && (Act(c, b).refs != 0 <==> Flagged(Act(c, b)))
  {
  }

  lemma PutKeepsInv(m: Manager, id: Id, b: Buffer)
    requires Inv(m) && id in m.list && BufferOk(b)
    ensures Inv(Put(m, id, b))
  {
    RemoveExactly(m.list, id);
  }

  lemma GetKeepsInv(m: Manager, id: Id, data: int)
    requires Inv(m) && id !in m.list
    ensures Inv(Get(m, id, data))
  {
  }

  lemma {:induction false} CleanKeepsInv(m: Manager)
    requires Inv(m)
    ensures Inv(CleanFrom(m)) && CleanFrom(m).list == []
    decreases |m.list|
  {
    if m.list == [] {
    } else {
      var id := m.list[0];
      DistinctParts(m.list);
      CleanKeepsInv(Manager(m.list[1..], m.buffers[id := Cleaned(m.buffers[id])]));
    }
  }

  // ---------- Runs ----------

  /** The pad allocates a buffer only when nobody holds a reference to it any more. */
  predicate Legal(m: Manager, c: Call) {
    c.GetBuffer? ==> c.id !in m.list
  }

  lemma StepKeepsInv(m: Manager, c: Call)
    requires Inv(m) && Legal(m, c)
    ensures Inv(Step(m, c))
  {
    match c
    case GetBuffer(id, data) => GetKeepsInv(m, id, data);
    case Clean => CleanKeepsInv(m);
    case _ =>
      var found := Find(m, c.data);
      if found.Some? {
        ActKeepsBuffer(c, m.buffers[found.value]);
        PutKeepsInv(m, found.value, Act(c, m.buffers[found.value]));
      }
  }

  ghost predicate LegalRun(calls: seq<Call>)
    decreases |calls|
  {
    calls == [] || (LegalRun(calls[..|calls| - 1]) && Legal(After(calls[..|calls| - 1]), calls[|calls| - 1]))
  }

  function After(calls: seq<Call>): Manager
    decreases |calls|
  {
    if calls == [] then Manager([], map[]) else Step(After(calls[..|calls| - 1]), calls[|calls| - 1])
  }

  lemma {:induction false} RunsKeepInv(calls: seq<Call>)
    requires LegalRun(calls)
    ensures Inv(After(calls))
    decreases |calls|
  {
    if calls == [] {
    } else {
      RunsKeepInv(calls[..|calls| - 1]);
      StepKeepsInv(After(calls[..|calls| - 1]), calls[|calls| - 1]);
    }
  }

  /**
    After any run and a final BM_CLEAN_LIST nothing is owed: for every buffer the references given up, by pushing
    or unreferencing, are exactly the two taken by each BM_GET_BUFFER.
   */
  lemma CleanGivesEverythingUp(calls: seq<Call>, id: Id)
    requires LegalRun(calls)
    ensures var m := Step(After(calls), Clean);
            && m.list == []
            && (id in m.buffers ==>
                  var b := m.buffers[id]; b.refs == 0 && b.pushes + b.unrefs == 2 * b.gets && b.pushes <= b.gets)
  {
    RunsKeepInv(calls);
    CleanKeepsInv(After(calls));
  }

  // ---------- How the macros combine ----------

  /** Data that no other listed buffer has. */
  ghost predicate Only(m: Manager, id: Id, data: int) {
    && id in m.list && id in m.buffers && m.buffers[id].data == data
    && forall x :: x in m.list && x in m.buffers && m.buffers[x].data == data ==> x == id
  }

  lemma {:induction false} FindOnly(list: seq<Id>, buffers: map<Id, Buffer>, id: Id, data: int)
    requires id in list && id in buffers && buffers[id].data == data
    requires forall x :: x in list && x in buffers && buffers[x].data == data ==> x == id
    ensures FindIn(list, buffers, data) == Some(id)
    decreases |list|
  {
    if list[0] == id {
    } else {
      assert id in list[1..];
      FindOnly(list[1..], buffers, id, data);
    }
  }

  lemma {:induction false} FindNone(list: seq<Id>, buffers: map<Id, Buffer>, data: int)
    requires forall x :: x in list && x in buffers ==> buffers[x].data != data
    ensures FindIn(list, buffers, data) == None
    decreases |list|
  {
    if list == [] {
    } else {
      FindNone(list[1..], buffers, data);
    }
  }

  lemma {:induction false} FindInLonger(list: seq<Id>, before: map<Id, Buffer>, after: map<Id, Buffer>, id: Id,
                                       data: int)
    requires id !in list && id in after && forall x :: x in list ==> (x in before <==> x in after)
    requires forall x :: x in list && x in before ==> before[x].data == after[x].data
    ensures FindIn(list + [id], after, data)
         == if FindIn(list, before, data).Some? then FindIn(list, before, data)
            else if after[id].data == data then Some(id) else None
    decreases |list|
  {
    if list == [] {
      assert list + [id] == [id];
    } else {
      assert (list + [id])[1..] == list[1..] + [id];
      FindInLonger(list[1..], before, after, id, data);
    }
  }

  /** A buffer just got is found by the data it has now, unless one got before shows the same; all others stay found. */
  lemma GetIsFoundLast(m: Manager, id: Id, data: int, sought: int)
    requires id !in m.list
    ensures Find(Get(m, id, data), sought)
         == if Find(m, sought).Some? then Find(m, sought) else if sought == data then Some(id) else None
  {
    FindInLonger(m.list, m.buffers, Get(m, id, data).buffers, id, sought);
  }

  /** One macro applied to a buffer, and then another. */
  lemma TwoCalls(m: Manager, id: Id, data: int, c: Call, d: Call)
    requires Inv(m) && Only(m, id, data) && OnBuffer(c) && OnBuffer(d) && c.data == d.data == data
    ensures var b := Act(c, m.buffers[id]);
            Step(Step(m, c), d) == if Flagged(b) then Put(Put(m, id, b), id, Act(d, b)) else Put(m, id, b)
  {
    FindOnly(m.list, m.buffers, id, data);
    var b := Act(c, m.buffers[id]);
    var n := Put(m, id, b);
    ActKeepsBuffer(c, m.buffers[id]);
    PutKeepsInv(m, id, b);
    RemoveExactly(m.list, id);
    if Flagged(b) {
      FindOnly(n.list, n.buffers, id, data);
    } else {
      FindNone(n.list, n.buffers, data);
    }
  }

  /** It does not matter whether a picture is shown before or after the decoder releases its buffer. */
  lemma RenderAndReleaseCommute(m: Manager, id: Id, data: int)
    requires Inv(m) && Only(m, id, data) && m.buffers[id].notRender && m.buffers[id].refed
    ensures Step(Step(m, Render(data)), Release(data)) == Step(Step(m, Release(data)), Render(data))
    ensures var n := Step(Step(m, Render(data)), Release(data));
            id !in n.list && n.buffers[id].refs == 0 && n.buffers[id].pushes == m.buffers[id].pushes + 1
  {
    TwoCalls(m, id, data, Render(data), Release(data));
    TwoCalls(m, id, data, Release(data), Render(data));
    RemoveExactly(m.list, id);
  }

  /** Releasing a buffer twice without showing it is releasing and rejecting it. */
  lemma SecondReleaseRejects(m: Manager, id: Id, data: int)
    requires Inv(m) && Only(m, id, data) && m.buffers[id].notRender && m.buffers[id].refed
    ensures Step(Step(m, Release(data)), Release(data)) == Step(Step(m, Release(data)), Reject(data))
    ensures Step(Step(m, Release(data)), Release(data)).buffers[id].refs == 0
  {
    TwoCalls(m, id, data, Release(data), Release(data));
    TwoCalls(m, id, data, Release(data), Reject(data));
  }

  // ---------- The object ----------

  class BufferManager {
    var list: seq<Id>
    var buffers: map<Id, Buffer>

    function View(): Manager
      reads this
    {
      Manager(list, buffers)
    }

    constructor ()
      ensures View() == Manager([], map[])
    {
      list, buffers := [], map[];
    }

    /** The walk along the list that the macros share. */
    method Search(data: int) returns (found: Option<Id>)
      ensures found == Find(View(), data)
    {
      var rest := list;
      while rest != []
        invariant FindIn(rest, buffers, data) == Find(View(), data)
        decreases |rest|
      {
        if rest[0] in buffers && buffers[rest[0]].data == data {
          return Some(rest[0]);
        }
        rest := rest[1..];
      }
      return None;
    }

    /** BM_GET_BUFFER, with the buffer and its data that the pad gives, if any; None also stands for a null pointer. */
    method GetBuffer(given: Option<(Id, int)>) returns (pdata: Option<int>)
      modifies this
      ensures given.None? ==> pdata == None && View() == old(View())
      ensures given.Some? ==> pdata == Some(given.value.1) && View() == Get(old(View()), given.value.0, given.value.1)
    {
      if given.None? {
        return None;
      }
      var (id, data) := given.value;
      pdata := Some(data);
      var b := if id in buffers then buffers[id] else Buffer(data, false, false, 0, 0, 0, 0);
      b := b.(data := data, refs := b.refs + 1, gets := b.gets + 1);
      b := b.(notRender := true, refed := true);
      b := b.(refs := b.refs + 1);
      list := list + [id];
      buffers := buffers[id := b];
    }

    method ReleaseBuffer(data: int)
      modifies this
      ensures View() == Step(old(View()), Release(data))
    {
      var found := Search(data);
      if found.Some? {
        var b := buffers[found.value];
        if b.refed {
          b := Unref(b.(refed := false));
          if !Flagged(b) {
            list := Remove(list, found.value);
          }
        } else {
          b := Unref(b.(refed := false, notRender := false));
          list := Remove(list, found.value);
        }
        buffers := buffers[found.value := b];
      }
    }

    method RejectBuffer(data: int)
      requires Inv(View())
      modifies this
      ensures View() == Step(old(View()), Reject(data))
    {
      var found := Search(data);
      if found.Some? {
        var b := buffers[found.value];
        if b.notRender {
          b := Unref(b.(notRender := false));
          if !Flagged(b) {
            list := Remove(list, found.value);
          }
          buffers := buffers[found.value := b];
        }
      }
    }

    method RenderBuffer(data: int) returns (pushed: bool)
      requires Inv(View())
      modifies this
      ensures View() == Step(old(View()), Render(data))
    {
      pushed := false;
      var found := Search(data);
      if found.Some? {
        var b := buffers[found.value];
        if b.notRender {
          b := b.(notRender := false);
          if !Flagged(b) {
            list := Remove(list, found.value);
          }
          b := b.(refs := b.refs - 1, pushes := b.pushes + 1);
          pushed := true;
          buffers := buffers[found.value := b];
        }
      }
    }

    method CleanList()
      modifies this
      ensures View() == CleanFrom(old(View()))
    {
      while list != []
        invariant CleanFrom(View()) == CleanFrom(old(View()))
        decreases |list|
      {
        var id := list[0];
        if id in buffers {
          var b := buffers[id];
          if b.notRender {
            b := Unref(b.(notRender := false));
          }
          if b.refed {
            b := Unref(b.(refed := false));
          }
          buffers := buffers[id := b];
        }
        list := list[1..];
      }
    }
  }
}
