/**
  The record registry.  Every operation is one step under the registry mutex,
  except that opening is two: taking a share of the entry, and, later and outside
  the mutex, returning once the entry's ready flag is set.  A run is any
  interleaving of such steps; openers are told apart by an id.
 */
module RecordModel {

  /** Data pointers; 0 is NULL. */
  type Pointer = nat

  const SIZE_MODULUS: nat := 0x1_0000_0000

  datatype Entry = Entry(ready: bool, data: Pointer, holders: nat)

  datatype Opener = Waiting(name: string) | Holding(name: string, got: Pointer)

  datatype State = State(
    records: map<string, Entry>,
    openers: map<nat, Opener>,        // opens not closed yet
    makers: map<string, Pointer>)     // data of the create that made the entry ready

  const EMPTY := State(map[], map[], map[])

  datatype Action =
    | Create(name: string, data: Pointer)
    | Destroy(name: string)
    | OpenBegin(id: nat, name: string)
    | OpenReturn(id: nat)
    | Close(id: nat)

  /** A furi_check that fails stops the device. */
  datatype Outcome = Crash | Running(state: State)

  function GetOrCreate(records: map<string, Entry>, name: string): Entry {
    if name in records then records[name] else Entry(false, 0, 0)
  }

  function AfterCreate(s: State, name: string, data: Pointer): Outcome {
    var e := GetOrCreate(s.records, name);
    if e.data != 0 then Crash else
    Running(s.(records := s.records[name := Entry(true, data, e.holders)],
               makers := if e.ready then s.makers else s.makers[name := data]))
  }

  function AfterDestroy(s: State, name: string): Outcome {
    if name !in s.records then Crash
    else if s.records[name].holders != 0 then Running(s)
    else Running(s.(records := s.records - {name}, makers := s.makers - {name}))
  }

  function AfterOpenBegin(s: State, id: nat, name: string): Outcome {
    var e := GetOrCreate(s.records, name);
    Running(s.(records := s.records[name := e.(holders := (e.holders + 1) % SIZE_MODULUS)],
               openers := s.openers[id := Waiting(name)]))
  }

  function AfterOpenReturn(s: State, id: nat): Outcome
    requires id in s.openers && s.openers[id].Waiting? && s.openers[id].name in s.records
  {
    var name := s.openers[id].name;
    Running(s.(openers := s.openers[id := Holding(name, s.records[name].data)]))
  }

  function AfterClose(s: State, id: nat): Outcome
    requires id in s.openers
  {
    var name := s.openers[id].name;
    if name !in s.records then Crash else
    var e := s.records[name];
    Running(s.(records := s.records[name := e.(holders := (e.holders - 1) % SIZE_MODULUS)],
               openers := s.openers - {id}))
  }

  /** Opens are new, returns happen when the flag is set, closes match a returned open. */
  predicate Legal(s: State, a: Action) {
    match a
    case Create(_, _) => true
    case Destroy(_) => true
    case OpenBegin(id, _) => id !in s.openers && |s.openers| + 1 < SIZE_MODULUS
    case OpenReturn(id) =>
      id in s.openers && s.openers[id].Waiting?
      && s.openers[id].name in s.records && s.records[s.openers[id].name].ready
    case Close(id) => id in s.openers && s.openers[id].Holding?
  }

  function Step(s: State, a: Action): Outcome
    requires Legal(s, a)
  {
    match a
    case Create(name, data) => AfterCreate(s, name, data)
    case Destroy(name) => AfterDestroy(s, name)
    case OpenBegin(id, name) => AfterOpenBegin(s, id, name)
    case OpenReturn(id) => AfterOpenReturn(s, id)
    case Close(id) => AfterClose(s, id)
  }

  // ----------------------------------------------------------- the invariant

  function OpenersOf(openers: map<nat, Opener>, name: string): set<nat> {
    set i | i in openers && openers[i].name == name
  }

  ghost predicate Counted(s: State) {
    && (forall i :: i in s.openers ==> s.openers[i].name in s.records)
    && (forall n :: n in s.records ==> s.records[n].holders == |OpenersOf(s.openers, n)|)
  }

  ghost predicate ReadyOrHeld(s: State) {
    forall n :: n in s.records ==> s.records[n].ready || s.records[n].holders > 0
  }

  ghost predicate Made(s: State) {
    && (forall n :: n in s.makers ==> n in s.records && s.records[n].ready)
    && (forall n :: n in s.records && s.records[n].ready ==> n in s.makers)
    && (forall n :: n in s.records && !s.records[n].ready ==> s.records[n].data == 0)
    && (forall n :: n in s.makers && s.makers[n] != 0 ==> s.records[n].data == s.makers[n])
    && (forall i :: i in s.openers && s.openers[i].Holding? ==> s.openers[i].name in s.makers)
  }

  /** Every open that returned got the data of the create that made its entry ready. */
  ghost predicate Honoured(s: State) {
    forall i :: i in s.openers && s.openers[i].Holding? ==>
      s.openers[i].name in s.makers && s.openers[i].got == s.makers[s.openers[i].name]
  }

  ghost predicate Inv(s: State) {
    Counted(s) && ReadyOrHeld(s) && Made(s) && |s.openers| < SIZE_MODULUS
  }

  lemma OpenersAtMost(openers: map<nat, Opener>, name: string)
    ensures |OpenersOf(openers, name)| <= |openers|
  {
    assert OpenersOf(openers, name) <= openers.Keys;
    SubsetSize(OpenersOf(openers, name), openers.Keys);
  }

  lemma SubsetSize(a: set<nat>, b: set<nat>)
    requires a <= b
    ensures |a| <= |b|
  {
    assert b == a + (b - a);
  }

  lemma OpenersAdded(openers: map<nat, Opener>, id: nat, o: Opener, name: string)
    requires id !in openers
    ensures |OpenersOf(openers[id := o], name)| == |OpenersOf(openers, name)| + if o.name == name then 1 else 0
  {
    var m := openers[id := o];
    if o.name == name {
      assert OpenersOf(m, name) == OpenersOf(openers, name) + {id};
    } else {
      assert OpenersOf(m, name) == OpenersOf(openers, name);
    }
  }

  lemma OpenersReturned(openers: map<nat, Opener>, id: nat, o: Opener, name: string)
    requires id in openers && o.name == openers[id].name
    ensures OpenersOf(openers[id := o], name) == OpenersOf(openers, name)
  {
  }

  lemma OpenersClosed(openers: map<nat, Opener>, id: nat, name: string)
    requires id in openers
    ensures |OpenersOf(openers - {id}, name)| ==
      |OpenersOf(openers, name)| - if openers[id].name == name then 1 else 0
  {
    if openers[id].name == name {
      assert OpenersOf(openers - {id}, name) == OpenersOf(openers, name) - {id};
    } else {
      assert OpenersOf(openers - {id}, name) == OpenersOf(openers, name);
    }
  }

  lemma NoOpeners(openers: map<nat, Opener>, name: string)
    requires |OpenersOf(openers, name)| == 0
    ensures forall i :: i in openers ==> openers[i].name != name
  {
    assert OpenersOf(openers, name) == {};
    forall i | i in openers ensures openers[i].name != name {
      assert i !in OpenersOf(openers, name);
    }
  }

  lemma NobodyYet(s: State, name: string)
    requires Counted(s) && name !in s.records
    ensures |OpenersOf(s.openers, name)| == 0
  {
    assert OpenersOf(s.openers, name) == {};
  }

  // --------------------------------------------------------------- each step

  lemma CreateInv(s: State, name: string, data: Pointer)
    requires Inv(s)
    ensures AfterCreate(s, name, data).Running? ==> Inv(AfterCreate(s, name, data).state)
  {
    hide Counted, Made;
    CreateCounted(s, name, data);
    CreateMade(s, name, data);
  }

  lemma CreateMade(s: State, name: string, data: Pointer)
    requires Made(s)
    ensures AfterCreate(s, name, data).Running? ==> Made(AfterCreate(s, name, data).state)
  {
  }

  lemma CreateCounted(s: State, name: string, data: Pointer)
    requires Counted(s)
    ensures AfterCreate(s, name, data).Running? ==> Counted(AfterCreate(s, name, data).state)
  {
    if name !in s.records { NobodyYet(s, name); }
    hide OpenersOf;
  }

  lemma DestroyInv(s: State, name: string)
    requires Inv(s)
    ensures AfterDestroy(s, name).Running? ==> Inv(AfterDestroy(s, name).state)
  {
    if name in s.records && s.records[name].holders == 0 { NoOpeners(s.openers, name); }
  }

  lemma OpenBeginCounted(s: State, id: nat, name: string)
    requires Counted(s) && id !in s.openers && |s.openers| + 1 < SIZE_MODULUS
    ensures Counted(AfterOpenBegin(s, id, name).state)
    ensures GetOrCreate(s.records, name).holders + 1 < SIZE_MODULUS
  {
    hide OpenersOf;
    var t := AfterOpenBegin(s, id, name).state;
    if name !in s.records { NobodyYet(s, name); }
    OpenersAtMost(s.openers, name);
    assert GetOrCreate(s.records, name).holders == |OpenersOf(s.openers, name)|;
    forall n | n in t.records ensures t.records[n].holders == |OpenersOf(t.openers, n)| {
      OpenersAdded(s.openers, id, Waiting(name), n);
      assert n != name ==> n in s.records && t.records[n] == s.records[n];
    }
  }

  lemma OpenBeginMade(s: State, id: nat, name: string)
    requires Made(s) && id !in s.openers
    ensures Made(AfterOpenBegin(s, id, name).state)
  {
  }

  lemma OpenBeginInv(s: State, id: nat, name: string)
    requires Inv(s) && Legal(s, OpenBegin(id, name))
    ensures AfterOpenBegin(s, id, name).Running? && Inv(AfterOpenBegin(s, id, name).state)
  {
    hide Counted, Made;
    OpenBeginCounted(s, id, name);
    OpenBeginMade(s, id, name);
  }

  lemma OpenReturnInv(s: State, id: nat)
    requires Inv(s) && Legal(s, OpenReturn(id))
    ensures AfterOpenReturn(s, id).Running? && Inv(AfterOpenReturn(s, id).state)
  {
    var t := AfterOpenReturn(s, id).state;
    forall n | n in t.records ensures t.records[n].holders == |OpenersOf(t.openers, n)| {
      OpenersReturned(s.openers, id, t.openers[id], n);
    }
    assert t.openers.Keys == s.openers.Keys;
  }

  lemma CloseCounted(s: State, id: nat)
    requires Counted(s) && id in s.openers && |s.openers| < SIZE_MODULUS
    ensures s.openers[id].name in s.records
    ensures 0 < s.records[s.openers[id].name].holders < SIZE_MODULUS
    ensures Counted(AfterClose(s, id).state)
  {
    var t := AfterClose(s, id).state;
    var name := s.openers[id].name;
    assert id in OpenersOf(s.openers, name);
    OpenersAtMost(s.openers, name);
    hide OpenersOf;
    forall n | n in t.records ensures t.records[n].holders == |OpenersOf(t.openers, n)| {
      OpenersClosed(s.openers, id, n);
    }
  }

  /** A close that matches a returned open never crashes. */
  lemma CloseInv(s: State, id: nat)
    requires Inv(s) && Legal(s, Close(id))
    ensures AfterClose(s, id).Running? && Inv(AfterClose(s, id).state)
  {
    hide Counted, Made, ReadyOrHeld;
    CloseCounted(s, id);
    CloseReady(s, id);
    CloseMade(s, id);
    assert s.openers.Keys == AfterClose(s, id).state.openers.Keys + {id};
  }

  lemma CloseMade(s: State, id: nat)
    requires Made(s) && id in s.openers
    ensures AfterClose(s, id).Running? ==> Made(AfterClose(s, id).state)
  {
  }

  lemma CloseReady(s: State, id: nat)
    requires ReadyOrHeld(s) && Made(s) && id in s.openers && s.openers[id].Holding?
    ensures AfterClose(s, id).Running? ==> ReadyOrHeld(AfterClose(s, id).state)
  {
  }

  lemma StepInv(s: State, a: Action)
    requires Inv(s) && Legal(s, a)
    ensures Step(s, a).Running? ==> Inv(Step(s, a).state)
    ensures Step(s, a).Crash? ==> a.Create? || a.Destroy?
  {
    hide Inv;
    match a
    case Create(name, data) => CreateInv(s, name, data);
    case Destroy(name) => DestroyInv(s, name);
    case OpenBegin(id, name) => OpenBeginInv(s, id, name);
    case OpenReturn(id) => OpenReturnInv(s, id);
    case Close(id) => CloseInv(s, id);
  }

  /** No step takes away an entry that an opener waits for or holds, or changes who made it. */
  lemma OpenersKeepTheirEntry(s: State, a: Action, id: nat)
    requires Inv(s) && Legal(s, a) && Step(s, a).Running? && id in s.openers
    ensures var name := s.openers[id].name;
      var t := Step(s, a).state;
      && name in s.records && (a == Close(id) || name in t.records)
      && (name in s.makers && name in t.records ==> name in t.makers && t.makers[name] == s.makers[name])
  {
    var name := s.openers[id].name;
    assert id in OpenersOf(s.openers, name);
  }

  // --------------------------------------------------------------- every run

  predicate LegalRun(s: State, run: seq<Action>)
    decreases |run|
  {
    run == [] || (Legal(s, run[0]) && Step(s, run[0]).Running? && LegalRun(Step(s, run[0]).state, run[1..]))
  }

  function Run(s: State, run: seq<Action>): State
    requires LegalRun(s, run)
    decreases |run|
  {
    if run == [] then s else Run(Step(s, run[0]).state, run[1..])
  }

  lemma {:induction false} RunKeepsInv(s: State, run: seq<Action>)
    requires Inv(s) && LegalRun(s, run)
    ensures Inv(Run(s, run))
    decreases |run|
  {
    hide Inv;
    if run != [] {
      StepInv(s, run[0]);
      RunKeepsInv(Step(s, run[0]).state, run[1..]);
    }
  }

  // ------------------------------------------------------ whose data is returned

  /** The run creates each record only with data from the set of its name. */
  predicate CreatesFrom(run: seq<Action>, datas: map<string, set<Pointer>>) {
    forall k :: 0 <= k < |run| && run[k].Create? ==> run[k].name in datas && run[k].data in datas[run[k].name]
  }

  /** A set of data pointers that cannot confuse the `data == NULL` test of create. */
  predicate Unambiguous(datas: set<Pointer>) {
    0 !in datas || datas == {0}
  }

  predicate AllUnambiguous(datas: map<string, set<Pointer>>) {
    forall n :: n in datas ==> Unambiguous(datas[n])
  }

  ghost predicate FromSets(s: State, datas: map<string, set<Pointer>>) {
    && (forall n :: n in s.makers ==> n in datas && s.makers[n] in datas[n])
    && (forall n :: n in s.records && s.records[n].data != 0 ==> n in datas && s.records[n].data in datas[n])
  }

  lemma StepHonours(s: State, a: Action, datas: map<string, set<Pointer>>)
    requires Inv(s) && Legal(s, a) && Step(s, a).Running? && AllUnambiguous(datas)
    requires Honoured(s) && FromSets(s, datas) && (a.Create? ==> a.name in datas && a.data in datas[a.name])
    ensures Honoured(Step(s, a).state) && FromSets(Step(s, a).state, datas)
  {
    StepFromSets(s, a, datas);
    var t := Step(s, a).state;
    forall i | i in t.openers && t.openers[i].Holding?
      ensures t.openers[i].name in t.makers && t.openers[i].got == t.makers[t.openers[i].name]
    {
      if i in s.openers {
        OpenersKeepTheirEntry(s, a, i);
        if a == OpenReturn(i) { ReturnsMade(s, i, datas); }
      }
    }
  }

  lemma StepFromSets(s: State, a: Action, datas: map<string, set<Pointer>>)
    requires Legal(s, a) && Step(s, a).Running? && FromSets(s, datas)
    requires a.Create? ==> a.name in datas && a.data in datas[a.name]
    ensures FromSets(Step(s, a).state, datas)
  {
  }

  /** A ready entry holds its maker's data when the data of its name are unambiguous. */
  lemma ReturnsMade(s: State, id: nat, datas: map<string, set<Pointer>>)
    requires Made(s) && FromSets(s, datas) && AllUnambiguous(datas) && Legal(s, OpenReturn(id))
    ensures var n := s.openers[id].name; n in s.makers && s.records[n].data == s.makers[n]
  {
    var n := s.openers[id].name;
    assert Unambiguous(datas[n]);
  }

  lemma {:induction false} RunHonours(s: State, run: seq<Action>, datas: map<string, set<Pointer>>)
    requires Inv(s) && LegalRun(s, run) && AllUnambiguous(datas) && CreatesFrom(run, datas)
    requires Honoured(s) && FromSets(s, datas)
    ensures Honoured(Run(s, run))
    decreases |run|
  {
    hide Inv, Honoured, FromSets, AllUnambiguous;
    if run != [] {
      StepInv(s, run[0]);
      StepHonours(s, run[0], datas);
      RunHonours(Step(s, run[0]).state, run[1..], datas);
    }
  }

  /** A NULL create followed by a second create: the waiting opener returns the second one's data. */
  function ConfusingRun(name: string, data: Pointer): seq<Action> {
    [Create(name, 0), OpenBegin(1, name), Create(name, data), OpenReturn(1)]
  }

  lemma ConfusingRunResult(name: string, data: Pointer)
    requires data != 0
    ensures LegalRun(EMPTY, ConfusingRun(name, data)) && !Honoured(Run(EMPTY, ConfusingRun(name, data)))
  {
    var run := ConfusingRun(name, data);
    var s1 := Step(EMPTY, run[0]).state;
    var s2 := Step(s1, run[1]).state;
    var s3 := Step(s2, run[2]).state;
    var s4 := Step(s3, run[3]).state;
    assert s4.openers[1] == Holding(name, data) && s4.makers[name] == 0;
    assert LegalRun(s4, run[4..]) && Run(s4, run[4..]) == s4;
    assert run[3..][1..] == run[4..] && run[2..][1..] == run[3..] && run[1..][1..] == run[2..];
    assert LegalRun(s3, run[3..]) && Run(s3, run[3..]) == s4;
    assert LegalRun(s2, run[2..]) && Run(s2, run[2..]) == s4;
    assert LegalRun(s1, run[1..]) && Run(s1, run[1..]) == s4;
  }

  /** Opens return the maker's data in every run, exactly when no name mixes NULL with other data. */
  lemma HonouredIff(datas: map<string, set<Pointer>>)
    ensures (forall run :: LegalRun(EMPTY, run) && CreatesFrom(run, datas) ==> Honoured(Run(EMPTY, run)))
      <==> AllUnambiguous(datas)
  {
    EmptyHolds(datas);
    if AllUnambiguous(datas) {
      forall run | LegalRun(EMPTY, run) && CreatesFrom(run, datas) ensures Honoured(Run(EMPTY, run)) {
        RunHonours(EMPTY, run, datas);
      }
    } else {
      var n :| n in datas && !Unambiguous(datas[n]);
      var d :| d in datas[n] && d != 0;
      ConfusingRunResult(n, d);
      assert CreatesFrom(ConfusingRun(n, d), datas);
    }
  }

  lemma EmptyHolds(datas: map<string, set<Pointer>>)
    ensures Inv(EMPTY) && Honoured(EMPTY) && FromSets(EMPTY, datas)
  {
  }

  /** Every run of the registry, from the start. */
  lemma AllRuns(run: seq<Action>)
    requires LegalRun(EMPTY, run)
    ensures Inv(Run(EMPTY, run))
  {
    EmptyHolds(map[]);
    RunKeepsInv(EMPTY, run);
  }
}

/** The registry as the object the functions of record.c mutate. */
module Record {
  import opened RecordModel

  class FuriRecord {
    var records: map<string, Entry>
    ghost var openers: map<nat, Opener>
    ghost var makers: map<string, Pointer>

    ghost function Current(): State
      reads this
    {
      State(records, openers, makers)
    }

    constructor ()
      ensures Current() == EMPTY
    {
      records, openers, makers := map[], map[], map[];
    }

    /** furi_record_data_get_or_create: afterwards the entry exists. */
    method GetOrCreateData(name: string) returns (e: Entry)
      modifies this`records
      ensures e == GetOrCreate(old(records), name) && records == old(records)[name := e]
    {
      if name !in records {
        records := records[name := Entry(false, 0, 0)];
      }
      e := records[name];
    }

    method Create(name: string, data: Pointer) returns (ok: bool)
      modifies this
      ensures ok <==> AfterCreate(old(Current()), name, data).Running?
      ensures ok ==> Current() == AfterCreate(old(Current()), name, data).state
      // refused for an entry with data; otherwise the entry is ready with the data, and its holders stay
      ensures ok <==> !(name in old(records) && old(records)[name].data != 0)
      ensures ok ==> name in records && records[name].ready && records[name].data == data
      ensures ok ==> records[name].holders == if name in old(records) then old(records)[name].holders else 0
      ensures forall n :: n != name ==> (n in records <==> n in old(records))
      ensures forall n :: n != name && n in records ==> records[n] == old(records)[n]
    {
      var e := GetOrCreateData(name);
      if e.data != 0 {
        return false;
      }
      makers := if e.ready then makers else makers[name := data];
      records := records[name := e.(data := data)];
      records := records[name := records[name].(ready := true)];
      return true;
    }

    method Destroy(name: string) returns (ok: bool, destroyed: bool)
      modifies this
      ensures ok <==> AfterDestroy(old(Current()), name).Running?
      ensures ok ==> Current() == AfterDestroy(old(Current()), name).state
      ensures ok ==> (destroyed <==> name !in records)
      // refused for a missing entry; an unheld one goes, a held one stays
      ensures ok <==> name in old(records)
      ensures ok ==> (name in records <==> old(records)[name].holders != 0)
      ensures forall n :: n in records ==> n in old(records) && records[n] == old(records)[n]
      ensures forall n :: n in old(records) && n != name ==> n in records
    {
      destroyed := false;
      if name !in records {
        return false, false;
      }
      if records[name].holders == 0 {
        records := records - {name};
        makers := makers - {name};
        destroyed := true;
      }
      return true, destroyed;
    }

    method OpenBegin(ghost id: nat, name: string)
      modifies this
      ensures AfterOpenBegin(old(Current()), id, name) == Running(Current())
      // a missing entry is made, unready; one holder more, as size_t counts
      ensures name in records
      ensures records[name] == if name in old(records)
        then old(records)[name].(holders := (old(records)[name].holders + 1) % SIZE_MODULUS)
        else Entry(false, 0, 1)
      ensures forall n :: n != name ==> (n in records <==> n in old(records))
      ensures forall n :: n != name && n in records ==> records[n] == old(records)[n]
    {
      var e := GetOrCreateData(name);
      records := records[name := e.(holders := (e.holders + 1) % SIZE_MODULUS)];
      openers := openers[id := Waiting(name)];
    }

    /** The return from the wait on the ready flag. */
    method OpenReturn(ghost id: nat, name: string) returns (data: Pointer)
      requires Inv(Current()) && Legal(Current(), Action.OpenReturn(id)) && openers[id].name == name
      modifies this`openers
      ensures AfterOpenReturn(old(Current()), id) == Running(Current())
      ensures openers[id] == Holding(name, data)
    {
      data := records[name].data;
      openers := openers[id := Holding(name, data)];
    }

    method Close(ghost id: nat, name: string) returns (ok: bool)
      requires id in openers && openers[id].name == name
      modifies this
      ensures ok <==> AfterClose(old(Current()), id).Running?
      ensures ok ==> Current() == AfterClose(old(Current()), id).state
      // refused for a missing entry; otherwise it has one holder less, as size_t counts
      ensures ok <==> name in old(records)
      ensures ok ==> name in records
      ensures ok ==> records[name].holders == (old(records)[name].holders - 1) % SIZE_MODULUS
      ensures ok ==> records[name].data == old(records)[name].data && records[name].ready == old(records)[name].ready
      ensures ok ==> openers == old(openers) - {id}
      ensures forall n :: n != name ==> (n in records <==> n in old(records))
      ensures forall n :: n != name && n in records ==> records[n] == old(records)[n]
    {
      if name !in records {
        return false;
      }
      var e := records[name];
      records := records[name := e.(holders := (e.holders - 1) % SIZE_MODULUS)];
      openers := openers - {id};
      return true;
    }
  }
}
