/** StatusOr: a status and a value in one object, whose lifetimes the source
    manages by hand (hzcc/utils/status/internal/statusor_internal.h:148-302,
    hzcc/utils/status/statusor.h:589-598, 647-686). Values are identified, so
    that a value ended twice, never ended or used after its end shows up. */
module StatusOr {
  import opened Ast

  datatype StatusValue = OkStatus | Failure(code: nat, message: string) | MovedFrom

  const UNKNOWN := 2
  const INTERNAL := 13
  const INVALID_ARGUMENT := "An OK status is not a valid constructor argument to StatusOr<T>"

  /** In a release build an OK status that should be an error becomes an internal error. */
  function NotOk(st: StatusValue): StatusValue {
    if st == OkStatus then Failure(INTERNAL, INVALID_ARGUMENT) else st
  }

  /** The value objects: those alive with their contents, those ended in order,
      and whether something was done to an object that is not alive. */
  datatype Store = Store(next: nat, live: map<nat, int>, ended: seq<nat>, broken: bool)

  /** One StatusOr: its status, and the value object in its storage, if any. */
  datatype Cell = Cell(status: StatusValue, slot: Option<nat>)

  // ----- what the operations are to achieve -----

  datatype Pair = Pair(cell: Cell, store: Store)

  function Begun(store: Store, v: int): Store {
    store.(live := store.live[store.next := v], next := store.next + 1)
  }

  function Ended(store: Store, slot: Option<nat>): Store {
    if slot.None? then store
    else store.(live := store.live - {slot.value}, ended := store.ended + [slot.value])
  }

  /** Holds a new value object. */
  function Fresh(store: Store, v: int): Pair {
    Pair(Cell(OkStatus, Some(store.next)), Begun(store, v))
  }

  /** Holds `v`: in the object it already has, or in a new one. */
  function Holding(p: Pair, v: int): Pair {
    if p.cell.slot.Some? then p.(store := p.store.(live := p.store.live[p.cell.slot.value := v])) else Fresh(p.store, v)
  }

  /** Holds an error; a value it had is ended. */
  function Failing(p: Pair, st: StatusValue): Pair {
    Pair(Cell(NotOk(st), None), Ended(p.store, p.cell.slot))
  }

  /** A value exactly when the status is OK, and it is alive. */
  predicate Sound(cell: Cell, store: Store) {
    (cell.status == OkStatus <==> cell.slot.Some?) && (cell.slot.Some? ==> cell.slot.value in store.live)
  }

  function Content(cell: Cell, store: Store): int
    requires Sound(cell, store) && cell.slot.Some?
  {
    store.live[cell.slot.value]
  }

  // ----- the objects as the source handles them -----

  class Storage {
    var store: Store

    constructor ()
      ensures store == Store(0, map[], [], false)
    {
      store := Store(0, map[], [], false);
    }

    /** Placement new. */
    method Begin(v: int) returns (id: nat)
      modifies this
      ensures id == old(store.next) && store == Begun(old(store), v)
    {
      id := store.next;
      store := Begun(store, v);
    }

    /** A destructor call; on an object that is not alive it breaks everything. */
    method End(slot: Option<nat>)
      modifies this
      ensures slot.Some? && slot.value in old(store.live) ==> store == Ended(old(store), slot)
      ensures !(slot.Some? && slot.value in old(store.live)) ==> store == old(store).(broken := true)
    {
      if slot.Some? && slot.value in store.live {
        store := Ended(store, slot);
      } else {
        store := store.(broken := true);
      }
    }

    /** Assignment to an object. */
    method Write(slot: Option<nat>, v: int)
      modifies this
      ensures slot.Some? && slot.value in old(store.live) ==>
                store == old(store).(live := old(store.live)[slot.value := v])
      ensures !(slot.Some? && slot.value in old(store.live)) ==> store == old(store).(broken := true)
    {
      if slot.Some? && slot.value in store.live {
        store := store.(live := store.live[slot.value := v]);
      } else {
        store := store.(broken := true);
      }
    }
  }

  class StatusOrData {
    const storage: Storage
    var status: StatusValue
    var slot: Option<nat>

    ghost function Now(): Pair
      reads this, storage
    {
      Pair(Cell(status, slot), storage.store)
    }

    ghost predicate Valid()
      reads this, storage
    {
      Sound(Cell(status, slot), storage.store)
    }

    function Ok(): bool
      reads this
    {
      status == OkStatus
    }

    constructor FromValue(storage: Storage, v: int)
      modifies storage
      ensures this.storage == storage && Valid() && Now() == Fresh(old(storage.store), v)
    {
      this.storage := storage;
      status, slot := MovedFrom, None;
      new;
      MakeValue(v);
      status := OkStatus;
    }

    /** Also for StatusOr(), which passes an unknown error. */
    constructor FromStatus(storage: Storage, st: StatusValue)
      ensures this.storage == storage && Valid() && Now() == Pair(Cell(NotOk(st), None), storage.store)
    {
      this.storage := storage;
      status, slot := st, None;
      new;
      EnsureNotOk();
    }

    constructor CopyOf(storage: Storage, other: StatusOrData)
      requires other.storage == storage && other.Valid()
      modifies storage
      ensures this.storage == storage && Valid() && other.Valid()
      ensures Now() == if other.Ok() then Fresh(old(storage.store), Content(old(other.Now().cell), old(storage.store)))
                       else Pair(Cell(other.status, None), old(storage.store))
    {
      this.storage := storage;
      status, slot := MovedFrom, None;
      new;
      if other.Ok() {
        MakeValue(storage.store.live[other.slot.value]);
        status := OkStatus;
      } else {
        status := other.status;
      }
    }

    /** `husk` is what moving leaves behind in the other value. */
    constructor MovedFromOther(storage: Storage, other: StatusOrData, husk: int)
      requires other.storage == storage && other.Valid()
      modifies storage, other
      ensures this.storage == storage && Valid() && other.Valid()
      ensures old(other.Ok()) ==>
                && Now().cell == Fresh(old(storage.store), Content(old(other.Now().cell), old(storage.store))).cell
                && storage.store == Holding(Pair(old(other.Now().cell),
                                                 Begun(old(storage.store), Content(old(other.Now().cell), old(storage.store)))),
                                            husk).store
                && other.Now().cell == old(other.Now().cell)
      ensures !old(other.Ok()) ==>
                && Now() == Pair(Cell(old(other.status), None), old(storage.store))
                && other.Now() == Pair(Cell(MovedFrom, None), old(storage.store))
    {
      this.storage := storage;
      status, slot := MovedFrom, None;
      new;
      if other.Ok() {
        MakeValue(storage.store.live[other.slot.value]);
        storage.Write(other.slot, husk);
        status := OkStatus;
      } else {
        status := other.status;
        other.status := MovedFrom;
      }
    }

    method MakeValue(v: int)
      modifies this`slot, storage
      ensures slot == Some(old(storage.store.next)) && storage.store == Begun(old(storage.store), v)
    {
      var id := storage.Begin(v);
      slot := Some(id);
    }

    /** Ends the value if there is one; the status is left for the caller to change. */
    method Clear()
      requires Valid()
      modifies this`slot, storage
      ensures slot == None && storage.store == Ended(old(storage.store), old(slot))
    {
      if Ok() {
        storage.End(slot);
      }
      slot := None;
    }

    /** Helper::HandleInvalidStatusCtorArg in a release build. */
    method EnsureNotOk()
      modifies this`status
      ensures status == NotOk(old(status))
    {
      if Ok() {
        status := Failure(INTERNAL, INVALID_ARGUMENT);
      }
    }

    method Assign(v: int)
      requires Valid()
      modifies this, storage
      ensures Valid() && Now() == Holding(old(Now()), v)
    {
      if Ok() {
        storage.Write(slot, v);
      } else {
        MakeValue(v);
        status := OkStatus;
      }
    }

    method AssignStatus(st: StatusValue)
      requires Valid()
      modifies this, storage
      ensures Valid() && Now() == Failing(old(Now()), st)
    {
      Clear();
      status := st;
      EnsureNotOk();
    }

    /** Copy assignment; assigning an object to itself does nothing. */
    method CopyAssign(other: StatusOrData)
      requires Valid() && other.Valid() && other.storage == storage
      modifies this, storage
      ensures Valid()
      ensures this == other ==> Now() == old(Now())
      ensures this != other && other.Ok() ==>
                Now() == Holding(old(Now()), Content(old(other.Now().cell), old(storage.store)))
      ensures this != other && !other.Ok() ==> Now() == Failing(old(Now()), other.status)
    {
      if this == other {
        return;
      }
      if other.Ok() {
        Assign(storage.store.live[other.slot.value]);
      } else {
        AssignStatus(other.status);
      }
    }

    /** Move assignment from another object. */
    method MoveAssign(other: StatusOrData, husk: int)
      requires Valid() && other.Valid() && other.storage == storage
      requires this != other ==> slot.None? || slot != other.slot
      modifies this, other, storage
      ensures Valid() && other.Valid()
      ensures this == other ==> Now() == old(Now())
      ensures this != other && old(other.Ok()) ==>
                var held := Holding(old(Now()), Content(old(other.Now().cell), old(storage.store)));
                && Now().cell == held.cell && other.Now().cell == old(other.Now().cell)
                && storage.store == Holding(Pair(old(other.Now().cell), held.store), husk).store
      ensures this != other && !old(other.Ok()) ==>
                && Now() == Failing(old(Now()), old(other.status))
                && other.Now().cell == Cell(MovedFrom, None)
    {
      if this == other {
        return;
      }
      if other.Ok() {
        Assign(storage.store.live[other.slot.value]);
        storage.Write(other.slot, husk);
      } else {
        var st := other.status;
        other.status := MovedFrom;
        AssignStatus(st);
      }
    }

    /** emplace: a new value object in any case. */
    method Emplace(v: int)
      requires Valid()
      modifies this, storage
      ensures Valid() && Now() == Fresh(Ended(old(storage.store), old(slot)), v)
    {
      if Ok() {
        Clear();
        MakeValue(v);
      } else {
        MakeValue(v);
        status := OkStatus;
      }
    }

    /** status() on an rvalue: an error is moved out, but stays an error. */
    method TakeStatus() returns (st: StatusValue)
      requires Valid()
      modifies this`status
      ensures Valid() && st == old(status)
      ensures status == if old(Ok()) then OkStatus else MovedFrom
    {
      if Ok() {
        st := OkStatus;
      } else {
        st := status;
        status := MovedFrom;
      }
    }

    method Destroy()
      requires Valid()
      modifies this, storage
      ensures slot == None && storage.store == Ended(old(storage.store), old(slot))
    {
      if Ok() {
        storage.End(slot);
      }
      slot := None;
    }
  }

  // ----- every sequence of operations on any number of objects -----

  datatype World = World(cells: map<nat, Cell>, store: Store)

  datatype Op =
    | New(n: nat)
    | NewValue(n: nat, v: int)
    | NewStatus(n: nat, st: StatusValue)
    | CopyNew(n: nat, m: nat)
    | MoveNew(n: nat, m: nat, husk: int)
    | CopyTo(n: nat, m: nat)
    | MoveTo(n: nat, m: nat, husk: int)
    | SetValue(n: nat, v: int)
    | SetStatus(n: nat, st: StatusValue)
    | EmplaceIn(n: nat, v: int)
    | Take(n: nat)
    | Delete(n: nat)

  predicate Creates(op: Op) {
    op.New? || op.NewValue? || op.NewStatus? || op.CopyNew? || op.MoveNew?
  }

  predicate Allowed(w: World, op: Op) {
    && (Creates(op) <==> op.n !in w.cells)
    && (op.CopyNew? || op.MoveNew? || op.CopyTo? || op.MoveTo? ==> op.m in w.cells)
  }

  /** The methods' contracts, on the object `n`; the other cells stay as they are. */
  function After(w: World, n: nat, p: Pair): World {
    World(w.cells[n := p.cell], p.store)
  }

  function PairAt(w: World, n: nat): Pair
    requires n in w.cells
  {
    Pair(w.cells[n], w.store)
  }

  /** What is left of `m` when its contents are moved out. */
  function Husked(w: World, m: nat, husk: int): World
    requires m in w.cells
  {
    if w.cells[m].slot.Some? then After(w, m, Holding(PairAt(w, m), husk))
    else w.(cells := w.cells[m := Cell(MovedFrom, None)])
  }

  /** `n` gets what `m` has. */
  function Given(w: World, n: nat, m: nat): World
    requires m in w.cells && Sound(w.cells[m], w.store)
  {
    var from := w.cells[m];
    if from.slot.Some? then
      After(w, n, if n in w.cells then Holding(PairAt(w, n), Content(from, w.store)) else Fresh(w.store, Content(from, w.store)))
    else
      After(w, n, if n in w.cells then Failing(PairAt(w, n), from.status) else Pair(Cell(from.status, None), w.store))
  }

  function Step(w: World, op: Op): World
    requires Allowed(w, op) && forall n :: n in w.cells ==> Sound(w.cells[n], w.store)
  {
    match op
    case New(n) => After(w, n, Pair(Cell(Failure(UNKNOWN, ""), None), w.store))
    case NewValue(n, v) => After(w, n, Fresh(w.store, v))
    case NewStatus(n, st) => After(w, n, Pair(Cell(NotOk(st), None), w.store))
    case CopyNew(n, m) => Given(w, n, m)
    case MoveNew(n, m, husk) => Husked(Given(w, n, m), m, husk)
    case CopyTo(n, m) => if n == m then w else Given(w, n, m)
    case MoveTo(n, m, husk) => if n == m then w else Husked(Given(w, n, m), m, husk)
    case SetValue(n, v) => After(w, n, Holding(PairAt(w, n), v))
    case SetStatus(n, st) => After(w, n, Failing(PairAt(w, n), st))
    case EmplaceIn(n, v) => After(w, n, Fresh(Ended(w.store, w.cells[n].slot), v))
    case Take(n) => w.(cells := w.cells[n := Cell(if w.cells[n].status == OkStatus then OkStatus else MovedFrom, w.cells[n].slot)])
    case Delete(n) => World(w.cells - {n}, Ended(w.store, w.cells[n].slot))
  }

  predicate Owns(w: World, n: nat, id: nat) {
    n in w.cells && w.cells[n].slot == Some(id)
  }

  /** Every object is sound, no two share a value, every live value has an
      object, and every value ever made is alive or was ended exactly once. */
  ghost predicate Inv(w: World) {
    && (forall n :: n in w.cells ==> Sound(w.cells[n], w.store))
    && (forall n, m, id :: Owns(w, n, id) && Owns(w, m, id) ==> n == m)
    && (forall id :: id in w.store.live ==> exists n :: Owns(w, n, id))
    && Accounted(w.store)
  }

  ghost predicate Accounted(s: Store) {
    && !s.broken
    && (forall id :: id in s.live ==> id < s.next && id !in s.ended)
    && (forall i :: 0 <= i < |s.ended| ==> s.ended[i] < s.next)
    && (forall i, j :: 0 <= i < j < |s.ended| ==> s.ended[i] != s.ended[j])
    && (forall id: nat :: id < s.next ==> id in s.live || id in s.ended)
  }

  lemma BegunAccounted(s: Store, v: int)
    requires Accounted(s)
    ensures Accounted(Begun(s, v)) && s.next !in s.live
  {
  }

  lemma EndedAccounted(s: Store, slot: Option<nat>)
    requires Accounted(s) && (slot.Some? ==> slot.value in s.live)
    ensures Accounted(Ended(s, slot))
  {
  }

  /** An object gets a pair whose store differs from the old one in its own value only. */
  lemma AfterInv(w: World, n: nat, p: Pair)
    requires Inv(w) && Sound(p.cell, p.store) && Accounted(p.store)
    requires p.cell.slot.Some? ==> p.cell.slot.value == w.store.next || (n in w.cells && w.cells[n].slot == p.cell.slot)
    requires forall id :: id in p.store.live <==>
               (id in w.store.live && !Owns(w, n, id)) || p.cell.slot == Some(id)
    ensures Inv(After(w, n, p))
  {
    var w' := After(w, n, p);
    assert w.store.next !in w.store.live;
    forall m | m in w'.cells
      ensures Sound(w'.cells[m], w'.store)
    {
      if m != n && w.cells[m].slot.Some? {
        assert Owns(w, m, w.cells[m].slot.value) && !Owns(w, n, w.cells[m].slot.value);
      }
    }
    forall a, b, id | Owns(w', a, id) && Owns(w', b, id)
      ensures a == b
    {
      assert a != n ==> Owns(w, a, id) && id in w.store.live;
      assert b != n ==> Owns(w, b, id) && id in w.store.live;
      assert (a == n || b == n) && id != w.store.next ==> Owns(w, n, id);
    }
    forall id | id in w'.store.live
      ensures exists m :: Owns(w', m, id)
    {
      if p.cell.slot == Some(id) {
        assert Owns(w', n, id);
      } else {
        var m :| Owns(w, m, id);
        assert Owns(w', m, id);
      }
    }
  }

  lemma HoldingInv(w: World, n: nat, v: int)
    requires Inv(w) && n in w.cells
    ensures Inv(After(w, n, Holding(PairAt(w, n), v)))
  {
    BegunAccounted(w.store, v);
    if w.cells[n].slot.Some? {
      assert Owns(w, n, w.cells[n].slot.value);
    }
    AfterInv(w, n, Holding(PairAt(w, n), v));
  }

  lemma FreshInv(w: World, n: nat, v: int)
    requires Inv(w) && n !in w.cells
    ensures Inv(After(w, n, Fresh(w.store, v)))
  {
    BegunAccounted(w.store, v);
    AfterInv(w, n, Fresh(w.store, v));
  }

  lemma EmptyInv(w: World, n: nat, st: StatusValue)
    requires Inv(w) && n !in w.cells && st != OkStatus
    ensures Inv(After(w, n, Pair(Cell(st, None), w.store)))
  {
    AfterInv(w, n, Pair(Cell(st, None), w.store));
  }

  lemma FailingInv(w: World, n: nat, st: StatusValue)
    requires Inv(w) && n in w.cells
    ensures Inv(After(w, n, Failing(PairAt(w, n), st)))
  {
    EndedAccounted(w.store, w.cells[n].slot);
    if w.cells[n].slot.Some? {
      assert Owns(w, n, w.cells[n].slot.value);
    }
    AfterInv(w, n, Failing(PairAt(w, n), st));
  }

  lemma EmplaceInv(w: World, n: nat, v: int)
    requires Inv(w) && n in w.cells
    ensures Inv(After(w, n, Fresh(Ended(w.store, w.cells[n].slot), v)))
  {
    var s1 := Ended(w.store, w.cells[n].slot);
    EndedAccounted(w.store, w.cells[n].slot);
    BegunAccounted(s1, v);
    if w.cells[n].slot.Some? {
      assert Owns(w, n, w.cells[n].slot.value);
    }
    AfterInv(w, n, Fresh(s1, v));
  }

  lemma GivenInv(w: World, n: nat, m: nat)
    requires Inv(w) && m in w.cells && n != m
    ensures Inv(Given(w, n, m)) && m in Given(w, n, m).cells && Given(w, n, m).cells[m] == w.cells[m]
  {
    var from := w.cells[m];
    if from.slot.Some? {
      var v := Content(from, w.store);
      if n in w.cells { HoldingInv(w, n, v); } else { FreshInv(w, n, v); }
    } else {
      if n in w.cells { FailingInv(w, n, from.status); } else { EmptyInv(w, n, from.status); }
    }
  }

  lemma StatusOnlyInv(w: World, n: nat, st: StatusValue)
    requires Inv(w) && n in w.cells && (st == OkStatus <==> w.cells[n].status == OkStatus)
    ensures Inv(w.(cells := w.cells[n := Cell(st, w.cells[n].slot)]))
  {
    var p := Pair(Cell(st, w.cells[n].slot), w.store);
    if w.cells[n].slot.Some? {
      assert Owns(w, n, w.cells[n].slot.value);
    }
    AfterInv(w, n, p);
  }

  lemma HuskedInv(w: World, m: nat, husk: int)
    requires Inv(w) && m in w.cells
    ensures Inv(Husked(w, m, husk))
  {
    if w.cells[m].slot.Some? {
      HoldingInv(w, m, husk);
    } else {
      StatusOnlyInv(w, m, MovedFrom);
    }
  }

  lemma DeleteInv(w: World, n: nat)
    requires Inv(w) && n in w.cells
    ensures Inv(World(w.cells - {n}, Ended(w.store, w.cells[n].slot)))
  {
    var w' := World(w.cells - {n}, Ended(w.store, w.cells[n].slot));
    EndedAccounted(w.store, w.cells[n].slot);
    forall m | m in w'.cells
      ensures Sound(w'.cells[m], w'.store)
    {
      assert Sound(w.cells[m], w.store);
      if w.cells[m].slot.Some? {
        assert Owns(w, m, w.cells[m].slot.value) && !Owns(w, n, w.cells[m].slot.value);
      }
    }
    forall a, b, id | Owns(w', a, id) && Owns(w', b, id)
      ensures a == b
    {
      assert Owns(w, a, id) && Owns(w, b, id);
    }
    forall id | id in w'.store.live
      ensures exists m :: Owns(w', m, id)
    {
      var m :| Owns(w, m, id);
      assert Owns(w', m, id);
    }
  }

  lemma StepInv(w: World, op: Op)
    requires Inv(w) && Allowed(w, op)
    ensures Inv(Step(w, op))
  {
    match op {
      case New(n) => EmptyInv(w, n, Failure(UNKNOWN, ""));
      case NewValue(n, v) => FreshInv(w, n, v);
      case NewStatus(n, st) => EmptyInv(w, n, NotOk(st));
      case CopyNew(n, m) => GivenInv(w, n, m);
      case MoveNew(n, m, husk) => GivenInv(w, n, m); HuskedInv(Given(w, n, m), m, husk);
      case CopyTo(n, m) => if n != m { GivenInv(w, n, m); }
      case MoveTo(n, m, husk) => if n != m { GivenInv(w, n, m); HuskedInv(Given(w, n, m), m, husk); }
      case SetValue(n, v) => HoldingInv(w, n, v);
      case SetStatus(n, st) => FailingInv(w, n, st);
      case EmplaceIn(n, v) => EmplaceInv(w, n, v);
      case Take(n) => StatusOnlyInv(w, n, if w.cells[n].status == OkStatus then OkStatus else MovedFrom);
      case Delete(n) => DeleteInv(w, n);
    }
  }

  const EMPTY := World(map[], Store(0, map[], [], false))

  ghost predicate IsRun(worlds: seq<World>, ops: seq<Op>) {
    && |worlds| == |ops| + 1 && worlds[0] == EMPTY
    && forall i :: 0 <= i < |ops| ==>
         Allowed(worlds[i], ops[i]) && (Inv(worlds[i]) ==> worlds[i + 1] == Step(worlds[i], ops[i]))
  }

  /** Over every sequence of operations: an object holds a live value exactly
      when its status is OK, nothing is done to a value that is not alive, and
      every value made is alive, with one object, or has been ended once. */
  lemma {:induction false} EveryRunIsSound(worlds: seq<World>, ops: seq<Op>, i: nat)
    requires IsRun(worlds, ops) && i < |worlds|
    ensures Inv(worlds[i])
    decreases i
  {
    if i > 0 {
      EveryRunIsSound(worlds, ops, i - 1);
      StepInv(worlds[i - 1], ops[i - 1]);
    }
  }

  /** When all objects are destroyed, every value has been ended, and once only. */
  lemma AllEnded(worlds: seq<World>, ops: seq<Op>)
    requires IsRun(worlds, ops) && worlds[|ops|].cells == map[]
    ensures var s := worlds[|ops|].store;
            && s.live == map[] && !s.broken
            && (forall id: nat :: id < s.next ==> id in s.ended)
            && (forall i, j :: 0 <= i < j < |s.ended| ==> s.ended[i] != s.ended[j])
  {
    var w := worlds[|ops|];
    EveryRunIsSound(worlds, ops, |ops|);
    forall id
      ensures id !in w.store.live
    {
      assert id in w.store.live ==> exists n :: Owns(w, n, id);
    }
  }

  // ----- what an object shows -----

  /** Its status, and its value if it has one. */
  function View(w: World, n: nat): (StatusValue, Option<int>)
    requires n in w.cells && Sound(w.cells[n], w.store)
  {
    var cell := w.cells[n];
    (cell.status, if cell.slot.Some? then Some(w.store.live[cell.slot.value]) else None)
  }

  /** What a moved-from object shows: a value leaves its husk, an error the mark. */
  function Emptied(was: (StatusValue, Option<int>), husk: int): (StatusValue, Option<int>) {
    if was.0 == OkStatus then (OkStatus, Some(husk)) else (MovedFrom, None)
  }

  /** The object an operation is on shows what was given or copied; an OK
      status given as an error shows as an internal error. */
  lemma StepViews(w: World, op: Op)
    requires Inv(w) && Allowed(w, op)
    ensures Inv(Step(w, op))
    ensures var w' := Step(w, op);
            match op
            case New(n) => View(w', n) == (Failure(2, ""), None)
            case NewValue(n, v) => View(w', n) == (OkStatus, Some(v))
            case NewStatus(n, st) =>
              View(w', n).1 == None
              && View(w', n).0 == if st != OkStatus then st
                                  else Failure(13, "An OK status is not a valid constructor argument to StatusOr<T>")
            case CopyNew(n, m) => View(w', n) == View(w, m) && View(w', m) == View(w, m)
            case MoveNew(n, m, husk) => View(w', n) == View(w, m) && View(w', m) == Emptied(View(w, m), husk)
            case CopyTo(n, m) => View(w', n) == View(w, m) && View(w', m) == View(w, m)
            case MoveTo(n, m, husk) =>
              if n == m then w' == w else View(w', n) == View(w, m) && View(w', m) == Emptied(View(w, m), husk)
            case SetValue(n, v) => View(w', n) == (OkStatus, Some(v))
            case SetStatus(n, st) =>
              View(w', n).1 == None
              && View(w', n).0 == if st != OkStatus then st
                                  else Failure(13, "An OK status is not a valid constructor argument to StatusOr<T>")
            case EmplaceIn(n, v) => View(w', n) == (OkStatus, Some(v))
            case Take(n) => View(w', n) == if View(w, n).0 == OkStatus then View(w, n) else (MovedFrom, None)
            case Delete(n) => n !in w'.cells
  {
    StepInv(w, op);
    if op.MoveNew? || op.MoveTo? {
      if op.n != op.m {
        GivenInv(w, op.n, op.m);
        if w.cells[op.m].slot.Some? {
          NotShared(Given(w, op.n, op.m), op.n, op.m);
        }
      }
    }
  }

  lemma NotShared(w: World, n: nat, m: nat)
    requires Inv(w) && n in w.cells && m in w.cells && n != m && w.cells[n].slot.Some?
    ensures w.cells[n].slot != w.cells[m].slot
  {
    var id := w.cells[n].slot.value;
    assert Owns(w, n, id) && !Owns(w, m, id);
  }

  /** Every other object shows what it showed before. */
  lemma OthersKeepView(w: World, op: Op, x: nat)
    requires Inv(w) && Allowed(w, op) && x in w.cells && x != op.n && (op.MoveNew? || op.MoveTo? ==> x != op.m)
    ensures Inv(Step(w, op)) && x in Step(w, op).cells && View(Step(w, op), x) == View(w, x)
  {
    hide Step, Allowed, Owns, Accounted;
    StepInv(w, op);
    OthersKept(w, op, x);
  }

  lemma OthersKept(w: World, op: Op, x: nat)
    requires Inv(w) && Allowed(w, op) && x in w.cells && x != op.n && (op.MoveNew? || op.MoveTo? ==> x != op.m)
    ensures x in Step(w, op).cells && Step(w, op).cells[x] == w.cells[x]
    ensures w.cells[x].slot.Some? ==>
              var id := w.cells[x].slot.value;
              id in w.store.live && id in Step(w, op).store.live && Step(w, op).store.live[id] == w.store.live[id]
  {
    if w.cells[x].slot.Some? {
      assert Owns(w, x, w.cells[x].slot.value) && w.cells[x].slot.value < w.store.next;
      assert !Owns(w, op.n, w.cells[x].slot.value);
      if op.MoveNew? || op.MoveTo? {
        assert !Owns(w, op.m, w.cells[x].slot.value);
      }
    }
  }

  // ----- when values begin and end -----

  /** An operation ends the value of its object when the object gets an error or
      is destroyed, and in emplace; nothing else ends. */
  lemma StepEnds(w: World, op: Op)
    requires Inv(w) && Allowed(w, op)
    ensures var ends := op.SetStatus? || op.EmplaceIn? || op.Delete?
                        || ((op.CopyTo? || op.MoveTo?) && w.cells[op.m].slot.None? && op.n != op.m);
            Step(w, op).store.ended
            == w.store.ended + (if ends && w.cells[op.n].slot.Some? then [w.cells[op.n].slot.value] else [])
  {
  }

  /** A new value begins when an object without one gets a value, and in emplace;
      otherwise a value is written over the old one. */
  lemma StepBegins(w: World, op: Op)
    requires Inv(w) && Allowed(w, op)
    ensures var gets := op.NewValue? || op.SetValue?
                        || ((op.CopyNew? || op.MoveNew? || op.CopyTo? || op.MoveTo?) && w.cells[op.m].slot.Some?);
            Step(w, op).store.next
            == w.store.next
               + if op.EmplaceIn? || (gets && (op.n !in w.cells || w.cells[op.n].slot.None?)) then 1 else 0
  {
  }

  /** Any object can be made under a new number, and anything done to an object there is. */
  lemma AllAllowed(w: World, n: nat, m: nat, new0: nat, v: int, st: StatusValue)
    requires n in w.cells && m in w.cells && new0 !in w.cells
    ensures Allowed(w, New(new0)) && Allowed(w, NewValue(new0, v)) && Allowed(w, NewStatus(new0, st))
    ensures Allowed(w, CopyNew(new0, m)) && Allowed(w, MoveNew(new0, m, v))
    ensures Allowed(w, CopyTo(n, m)) && Allowed(w, MoveTo(n, m, v)) && Allowed(w, SetValue(n, v)) && Allowed(w, SetStatus(n, st))
    ensures Allowed(w, EmplaceIn(n, v)) && Allowed(w, Take(n)) && Allowed(w, Delete(n))
  {
  }
}
