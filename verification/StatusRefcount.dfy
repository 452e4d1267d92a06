/** Status handles that share reference-counted reps
    (hzcc/utils/status/status.h:733-860, hzcc/utils/status/status.cc:119-170):
    any number of threads, interleaved at every access to a shared counter.
    Reading a counter and subtracting from it are separate steps. */
module StatusRefcount {
  import opened Ast

  // ----- the representation word -----

  /** What rep_ holds: a code, perhaps marked as moved from, or a rep. */
  datatype Word = Inlined(code: nat, moved: bool) | External(r: nat)

  const OK := Inlined(0, false)
  const INTERNAL := 13
  const MOVED_FROM := Inlined(INTERNAL, true)

  /** rep_ as the number the source keeps: even for codes, odd for the
      (even) address of a rep. */
  function Encode(w: Word): nat {
    match w
    case Inlined(code, moved) => code * 4 + (if moved then 2 else 0)
    case External(r) => r * 2 + 1
  }

  function Decode(rep: nat): Word {
    var shifted, bit := rep / 2, rep % 2;
    if bit == 0 then Inlined(shifted / 2, shifted % 2 == 1) else External(shifted)
  }

  lemma Shift(q: nat, bit: nat)
    requires bit < 2
    ensures (q * 2 + bit) / 2 == q && (q * 2 + bit) % 2 == bit
  {
  }

  lemma RoundTrip(w: Word)
    ensures Decode(Encode(w)) == w
  {
    match w {
      case Inlined(code, moved) =>
        var bit := if moved then 1 else 0;
        Shift(code, bit);
        Shift(code * 2 + bit, 0);
        assert Encode(w) == (code * 2 + bit) * 2;
      case External(r) => Shift(r, 1);
    }
  }

  /** Comparing the numbers is comparing what they stand for. In particular a
      moved-from status is not OK. */
  lemma EncodeInjective(w: Word, w': Word)
    ensures Encode(w) == Encode(w') <==> w == w'
    ensures Encode(MOVED_FROM) != Encode(OK)
  {
    RoundTrip(w);
    RoundTrip(w');
  }

  // ----- states -----

  datatype Rep = Rep(count: int, code: nat, message: string)

  /** Who keeps a rep alive: a status object, or a thread that still has to give up what it replaced. */
  datatype Owner = Handle(h: nat) | InFlight(t: nat)

  /** Where a thread is. The release of a rep goes through Releasing (about to
      load the count), Subbing (about to subtract) and Deleting. */
  datatype Pc =
    | Idle
    | Copying(h: nat, src: nat, w: Word)
    | Assigning(dst: nat, src: nat, w: Word)
    | Releasing
    | Subbing
    | Deleting

  datatype State = State(reps: map<nat, Rep>, held: map<Owner, Word>, pcs: map<nat, Pc>, next: nat, deleted: seq<nat>)

  const INITIAL := State(map[], map[], map[], 0, [])

  function PcOf(s: State, t: nat): Pc {
    if t in s.pcs then s.pcs[t] else Idle
  }

  datatype Action =
    | Make(h: nat, code: nat, message: string)
    | CopyRead(h: nat, src: nat)
    | CopyRef
    | AssignRead(dst: nat, src: nat)
    | AssignRef
    | MoveMake(h: nat, src: nat)
    | MoveAssign(dst: nat, src: nat)
    | Swap(a: nat, b: nat)
    | Destroy(h: nat)
    | PrepareToModify(h: nat)
    | ReleaseLoad
    | ReleaseSub
    | ReleaseDelete

  // ----- what callers owe: no two threads use one object against each other -----

  predicate Writes(pc: Pc, h: nat) {
    (pc.Copying? && pc.h == h) || (pc.Assigning? && pc.dst == h)
  }

  predicate Reads(pc: Pc, h: nat) {
    (pc.Copying? || pc.Assigning?) && pc.src == h
  }

  predicate Uses(pc: Pc, h: nat) {
    Writes(pc, h) || Reads(pc, h)
  }

  /** The first writes what the second uses. */
  predicate Clash(pc: Pc, pc': Pc) {
    (pc.Copying? && Uses(pc', pc.h)) || (pc.Assigning? && Uses(pc', pc.dst))
  }

  ghost predicate Readable(s: State, h: nat) {
    Handle(h) in s.held && forall t :: !Writes(PcOf(s, t), h)
  }

  ghost predicate Writable(s: State, h: nat) {
    Handle(h) in s.held && forall t :: !Uses(PcOf(s, t), h)
  }

  ghost predicate Unused(s: State, h: nat) {
    Handle(h) !in s.held && forall t :: !Writes(PcOf(s, t), h)
  }

  ghost predicate Enabled(s: State, t: nat, a: Action) {
    var pc := PcOf(s, t);
    match a
    case Make(h, _, _) => pc == Idle && Unused(s, h)
    case CopyRead(h, src) => pc == Idle && Unused(s, h) && Readable(s, src)
    case CopyRef => pc.Copying?
    case AssignRead(dst, src) => pc == Idle && Writable(s, dst) && Readable(s, src)
    case AssignRef => pc.Assigning?
    case MoveMake(h, src) => pc == Idle && Unused(s, h) && Writable(s, src)
    case MoveAssign(dst, src) => pc == Idle && Writable(s, dst) && Writable(s, src)
    case Swap(x, y) => pc == Idle && Writable(s, x) && Writable(s, y)
    case Destroy(h) => pc == Idle && Writable(s, h)
    case PrepareToModify(h) => pc == Idle && Writable(s, h) && s.held[Handle(h)] != OK
    case ReleaseLoad => pc == Releasing
    case ReleaseSub => pc == Subbing
    case ReleaseDelete => pc == Deleting
  }

  // ----- steps; None is an access to a rep that is gone -----

  function At(s: State, t: nat, pc: Pc): State {
    s.(pcs := s.pcs[t := pc])
  }

  /** The thread now has to give up `w` (Status::Unref). */
  function GiveUp(s: State, t: nat, w: Word): State {
    if w.Inlined? then At(s, t, Idle) else At(s.(held := s.held[InFlight(t) := w]), t, Releasing)
  }

  /** A counter access. */
  function Add(s: State, w: Word, d: int): Option<State> {
    if w.Inlined? then Some(s)
    else if w.r !in s.reps then None
    else Some(s.(reps := s.reps[w.r := s.reps[w.r].(count := s.reps[w.r].count + d)]))
  }

  function WithNewRep(s: State, h: nat, code: nat, message: string): State {
    s.(reps := s.reps[s.next := Rep(1, code, message)], held := s.held[Handle(h) := External(s.next)], next := s.next + 1)
  }

  function Apply(s: State, t: nat, a: Action): Option<State>
    requires Enabled(s, t, a)
  {
    if (a.ReleaseLoad? || a.ReleaseSub? || a.ReleaseDelete?)
       && !(InFlight(t) in s.held && s.held[InFlight(t)].External? && s.held[InFlight(t)].r in s.reps) then None
    else
    match a
    case Make(h, code, message) =>
      if code != 0 && message != "" then Some(WithNewRep(s, h, code, message))
      else Some(s.(held := s.held[Handle(h) := Inlined(code, false)]))
    case CopyRead(h, src) => Some(At(s, t, Copying(h, src, s.held[Handle(src)])))
    case CopyRef =>
      var Copying(h, _, w) := s.pcs[t];
      (match Add(s, w, 1)
       case None => None
       case Some(s1) => Some(At(s1.(held := s1.held[Handle(h) := w]), t, Idle)))
    case AssignRead(dst, src) =>
      if s.held[Handle(src)] == s.held[Handle(dst)] then Some(s)
      else Some(At(s, t, Assigning(dst, src, s.held[Handle(src)])))
    case AssignRef =>
      var Assigning(dst, _, w) := s.pcs[t];
      (match Add(s, w, 1)
       case None => None
       case Some(s1) =>
         if Handle(dst) !in s1.held then None
         else Some(GiveUp(s1.(held := s1.held[Handle(dst) := w]), t, s1.held[Handle(dst)])))
    case MoveMake(h, src) =>
      Some(s.(held := s.held[Handle(h) := s.held[Handle(src)]][Handle(src) := MOVED_FROM]))
    case MoveAssign(dst, src) =>
      var old_rep := s.held[Handle(dst)];
      if s.held[Handle(src)] == old_rep then Some(s)
      else Some(GiveUp(s.(held := s.held[Handle(dst) := s.held[Handle(src)]][Handle(src) := MOVED_FROM]), t, old_rep))
    case Swap(x, y) =>
      Some(s.(held := s.held[Handle(x) := s.held[Handle(y)]][Handle(y) := s.held[Handle(x)]]))
    case Destroy(h) => Some(GiveUp(s.(held := s.held - {Handle(h)}), t, s.held[Handle(h)]))
    case PrepareToModify(h) =>
      var w := s.held[Handle(h)];
      if w.Inlined? then Some(At(WithNewRep(s, h, w.code, ""), t, Idle))
      else if w.r !in s.reps then None
      else if s.reps[w.r].count == 1 then Some(s)
      else Some(GiveUp(WithNewRep(s, h, s.reps[w.r].code, s.reps[w.r].message), t, w))
    case ReleaseLoad =>
      Some(At(s, t, if s.reps[s.held[InFlight(t)].r].count == 1 then Deleting else Subbing))
    case ReleaseSub =>
      var r := s.held[InFlight(t)].r;
      (match Add(s, External(r), -1)
       case None => None
       case Some(s1) =>
         if s1.reps[r].count == 0 then Some(At(s1, t, Deleting))
         else Some(At(s1.(held := s1.held - {InFlight(t)}), t, Idle)))
    case ReleaseDelete =>
      var r := s.held[InFlight(t)].r;
      Some(At(s.(reps := s.reps - {r}, held := s.held - {InFlight(t)}, deleted := s.deleted + [r]), t, Idle))
  }

  // ----- the invariant -----

  function Owners(held: map<Owner, Word>, r: nat): set<Owner> {
    set o | o in held && held[o] == External(r)
  }

  function Owning(held: map<Owner, Word>, r: nat): nat {
    |Owners(held, r)|
  }

  /** The count of a rep is the number of its owners; only while its last owner
      deletes it may the count already be zero. */
  ghost predicate Counted(s: State, r: nat)
    requires r in s.reps
  {
    && Owning(s.held, r) >= 1
    && (s.reps[r].count == Owning(s.held, r)
        || (s.reps[r].count == 0 && BeingDeleted(s, r)))
  }

  ghost predicate BeingDeleted(s: State, r: nat) {
    exists t :: PcOf(s, t) == Deleting && Owners(s.held, r) == {InFlight(t)}
  }

  ghost predicate ThreadOk(s: State, t: nat) {
    && (InFlight(t) in s.held <==> PcOf(s, t).Releasing? || PcOf(s, t).Subbing? || PcOf(s, t).Deleting?)
    && (InFlight(t) in s.held ==> s.held[InFlight(t)].External?)
    && match PcOf(s, t)
       case Copying(h, src, w) => Handle(h) !in s.held && Handle(src) in s.held && s.held[Handle(src)] == w
       case Assigning(dst, src, w) =>
         Handle(dst) in s.held && Handle(src) in s.held && s.held[Handle(src)] == w && s.held[Handle(dst)] != w
       case Deleting => Owners(s.held, s.held[InFlight(t)].r) == {InFlight(t)}
       case _ => true
  }

  /** No object is written by one thread while another uses it. */
  ghost predicate Apart(s: State) {
    forall t, t' :: t != t' ==> !Clash(PcOf(s, t), PcOf(s, t'))
  }

  ghost predicate NoDanglers(s: State) {
    forall o :: o in s.held && s.held[o].External? ==> s.held[o].r in s.reps
  }

  /** Every rep made so far is either alive, or was deleted, once. */
  ghost predicate Accounted(s: State) {
    && (forall r :: r in s.reps ==> r < s.next && r !in s.deleted)
    && (forall i :: 0 <= i < |s.deleted| ==> s.deleted[i] < s.next)
    && (forall i, j :: 0 <= i < j < |s.deleted| ==> s.deleted[i] != s.deleted[j])
    && (forall r: nat :: r < s.next ==> r in s.reps || r in s.deleted)
  }

  ghost predicate CountsOk(s: State) {
    forall r :: r in s.reps ==> Counted(s, r)
  }

  ghost predicate ThreadsOk(s: State) {
    forall t :: ThreadOk(s, t)
  }

  ghost predicate Inv(s: State) {
    CountsOk(s) && ThreadsOk(s) && Apart(s) && NoDanglers(s) && Accounted(s)
  }

  lemma InvThread(s: State, t: nat)
    ensures Inv(s) ==> ThreadOk(s, t)
  {
  }

  lemma InvCounted(s: State, r: nat)
    ensures Inv(s) && r in s.reps ==> Counted(s, r)
  {
  }

  lemma OwnerHolds(held: map<Owner, Word>, o: Owner, r: nat)
    ensures o in Owners(held, r) <==> o in held && held[o] == External(r)
  {
  }

  /** The action neither reaches a rep that is gone nor breaks the invariant. */
  ghost predicate Fine(s: State, t: nat, a: Action)
    requires Enabled(s, t, a)
  {
    Apply(s, t, a).Some? && Inv(Apply(s, t, a).value)
  }

  lemma InitialHolds()
    ensures Inv(INITIAL)
  {
  }

  // ----- counts: small changes of who owns what -----

  ghost predicate Balanced(s: State) {
    (CountsOk(s) && NoDanglers(s)) == true
  }

  /** Nothing happened to this rep. */
  lemma CountedKept(s: State, s': State, r: nat)
    requires r in s.reps && Counted(s, r) && r in s'.reps && s'.reps[r].count == s.reps[r].count
    requires Owners(s'.held, r) == Owners(s.held, r)
    requires forall t :: PcOf(s, t) == Deleting && InFlight(t) in Owners(s.held, r) ==> PcOf(s', t) == Deleting
    ensures Counted(s', r)
  {
    if s.reps[r].count == 0 && BeingDeleted(s, r) {
      var t :| PcOf(s, t) == Deleting && Owners(s.held, r) == {InFlight(t)};
      assert InFlight(t) in Owners(s.held, r) && PcOf(s', t) == Deleting;
    }
  }

  /** A rep with an owner that is not deleting it has an exact count. */
  lemma CountIsExact(s: State, r: nat, o: Owner)
    requires r in s.reps && Counted(s, r) && o in Owners(s.held, r) && (o.InFlight? ==> PcOf(s, o.t) != Deleting)
    ensures s.reps[r].count == Owning(s.held, r)
  {
  }

  function Put(s: State, o: Owner, w: Word): State {
    s.(held := s.held[o := w])
  }

  function Drop(s: State, o: Owner): State {
    s.(held := s.held - {o})
  }

  function Rename(s: State, o: Owner, o': Owner): State
    requires o in s.held
  {
    s.(held := (s.held - {o})[o' := s.held[o]])
  }

  function Gain(s: State, o: Owner, w: Word): State
    requires w.External? ==> w.r in s.reps
  {
    s.(held := s.held[o := w],
       reps := if w.Inlined? then s.reps else s.reps[w.r := s.reps[w.r].(count := s.reps[w.r].count + 1)])
  }

  lemma NoOwners(s: State, r: nat)
    requires NoDanglers(s) && r !in s.reps
    ensures Owners(s.held, r) == {}
  {
  }

  /** The maps agree except at `o`. */
  ghost predicate DifferAt(held: map<Owner, Word>, held': map<Owner, Word>, o: Owner) {
    forall x: Owner :: x != o ==> (x in held' <==> x in held) && (x in held ==> held'[x] == held[x])
  }

  lemma OwnedMore(held: map<Owner, Word>, held': map<Owner, Word>, o: Owner, r: nat)
    requires DifferAt(held, held', o) && o in held' && held'[o] == External(r) && (o in held ==> held[o] != External(r))
    ensures Owning(held', r) == Owning(held, r) + 1
  {
    assert Owners(held', r) == Owners(held, r) + {o};
  }

  lemma OwnedLess(held: map<Owner, Word>, held': map<Owner, Word>, o: Owner, r: nat)
    requires DifferAt(held, held', o) && o in held && held[o] == External(r) && (o in held' ==> held'[o] != External(r))
    ensures Owning(held', r) + 1 == Owning(held, r)
  {
    assert Owners(held, r) == Owners(held', r) + {o};
  }

  lemma OwnedSame(held: map<Owner, Word>, held': map<Owner, Word>, o: Owner, r: nat)
    requires DifferAt(held, held', o)
    requires (o in held ==> held[o] != External(r)) && (o in held' ==> held'[o] != External(r))
    ensures Owners(held', r) == Owners(held, r)
  {
  }

  /** A word that is no rep appears or disappears. */
  lemma InlineChanges(s: State, s': State, o: Owner)
    requires Balanced(s) && s'.reps == s.reps && s'.pcs == s.pcs && DifferAt(s.held, s'.held, o)
    requires (o in s.held ==> s.held[o].Inlined?) && (o in s'.held ==> s'.held[o].Inlined?)
    ensures Balanced(s')
  {
    hide Owners, Counted;
    forall r | r in s'.reps
      ensures Counted(s', r)
    {
      OwnedSame(s.held, s'.held, o, r);
      CountedKept(s, s', r);
    }
  }

  lemma RenameCounted(s: State, o: Owner, o': Owner, r: nat)
    requires r in s.reps && Counted(s, r) && o in s.held && o' !in s.held && (o.InFlight? ==> PcOf(s, o.t) != Deleting)
    ensures Counted(Rename(s, o, o'), r)
  {
    hide Owners, BeingDeleted, Owning;
    var s', held1 := Rename(s, o, o'), s.held - {o};
    if s.held[o] == External(r) {
      OwnerHolds(s.held, o, r);
      CountIsExact(s, r, o);
      OwnedLess(s.held, held1, o, r);
      OwnedMore(held1, s'.held, o', r);
    } else {
      OwnedSame(s.held, held1, o, r);
      OwnedSame(held1, s'.held, o', r);
      CountedKept(s, s', r);
    }
  }

  lemma RenameBalanced(s: State, o: Owner, o': Owner)
    requires Balanced(s) && o in s.held && o' !in s.held && (o.InFlight? ==> PcOf(s, o.t) != Deleting)
    ensures Balanced(Rename(s, o, o'))
  {
    hide Counted;
    forall r | r in s.reps
      ensures Counted(Rename(s, o, o'), r)
    {
      RenameCounted(s, o, o', r);
    }
  }

  lemma GainCounted(s: State, o: Owner, w: Word, from: Owner, r: nat)
    requires r in s.reps && Counted(s, r) && o !in s.held && from in s.held && s.held[from] == w
    requires (w.External? ==> w.r in s.reps) && (from.InFlight? ==> PcOf(s, from.t) != Deleting)
    ensures Counted(Gain(s, o, w), r)
  {
    hide Owners, BeingDeleted, Owning;
    var s' := Gain(s, o, w);
    if w == External(r) {
      OwnerHolds(s.held, from, r);
      CountIsExact(s, r, from);
      OwnedMore(s.held, s'.held, o, r);
    } else {
      OwnedSame(s.held, s'.held, o, r);
      CountedKept(s, s', r);
    }
  }

  lemma GainBalanced(s: State, o: Owner, w: Word, from: Owner)
    requires Balanced(s) && o !in s.held && from in s.held && s.held[from] == w
    requires from.InFlight? ==> PcOf(s, from.t) != Deleting
    ensures (w.External? ==> w.r in s.reps) && Balanced(Gain(s, o, w))
  {
    hide Counted;
    forall r | r in s.reps
      ensures Counted(Gain(s, o, w), r)
    {
      GainCounted(s, o, w, from, r);
    }
  }

  lemma NewRepBalanced(s: State, h: nat, code: nat, message: string)
    requires Balanced(s) && Handle(h) !in s.held && s.next !in s.reps
    ensures Balanced(WithNewRep(s, h, code, message))
  {
    hide Owners, Counted;
    var s' := WithNewRep(s, h, code, message);
    forall r | r in s.reps
      ensures Counted(s', r)
    {
      OwnedSame(s.held, s'.held, Handle(h), r);
      CountedKept(s, s', r);
    }
    NewRepCounted(s, h, code, message);
  }

  lemma NewRepCounted(s: State, h: nat, code: nat, message: string)
    requires NoDanglers(s) && Handle(h) !in s.held && s.next !in s.reps
    ensures Counted(WithNewRep(s, h, code, message), s.next)
  {
    NoOwners(s, s.next);
    OwnedMore(s.held, WithNewRep(s, h, code, message).held, Handle(h), s.next);
  }

  /** Only places change, and no thread stops deleting. */
  lemma PlacesBalanced(s: State, s': State)
    requires Balanced(s) && s'.reps == s.reps && s'.held == s.held
    requires forall t :: PcOf(s, t) == Deleting ==> PcOf(s', t) == Deleting
    ensures Balanced(s')
  {
    hide Owners;
    forall r | r in s'.reps
      ensures Counted(s', r)
    {
      CountedKept(s, s', r);
    }
  }

  // ----- the other threads -----

  /** The word was not in the hands of another thread. */
  ghost predicate FromElsewhere(s: State, t: nat, w: Word) {
    w.Inlined? || w.r !in s.reps || exists o :: o in s.held && s.held[o] == w && (o.Handle? || o == InFlight(t))
  }

  lemma FromObject(s: State, t: nat, h: nat)
    requires Handle(h) in s.held
    ensures FromElsewhere(s, t, s.held[Handle(h)])
  {
  }

  /** The thread's own token, or an object no other thread uses. */
  ghost predicate Private(s: State, t: nat, o: Owner) {
    if o.Handle? then forall t' :: t' != t ==> !Uses(PcOf(s, t'), o.h) else o.t == t
  }

  lemma TargetIsPrivate(s: State, t: nat)
    requires Apart(s) && (PcOf(s, t).Copying? || PcOf(s, t).Assigning?)
    ensures Private(s, t, Handle(if s.pcs[t].Copying? then s.pcs[t].h else s.pcs[t].dst)) && Private(s, t, InFlight(t))
  {
    assert forall t' :: t' != t ==> !Clash(PcOf(s, t), PcOf(s, t'));
  }

  lemma ObjectIsPrivate(s: State, t: nat, h: nat)
    requires forall t' :: !Uses(PcOf(s, t'), h)
    ensures Private(s, t, Handle(h)) && Private(s, t, InFlight(t))
  {
  }

  /** A step of `t` changes only what `mine` hold, which no other thread uses,
      and takes nothing out of another thread's hands. */
  ghost predicate Local(s: State, s': State, t: nat, mine: set<Owner>) {
    && (forall t' :: t' != t ==> PcOf(s', t') == PcOf(s, t'))
    && (forall o :: o in mine ==> Private(s, t, o))
    && (forall o: Owner :: o !in mine ==> (o in s'.held <==> o in s.held) && (o in s.held ==> s'.held[o] == s.held[o]))
    && (forall o :: o in mine && o in s'.held ==> FromElsewhere(s, t, s'.held[o]))
  }

  lemma OthersKept(s: State, s': State, t: nat, mine: set<Owner>)
    requires ThreadsOk(s) && NoDanglers(s) && Local(s, s', t, mine)
    ensures forall t' :: t' != t ==> ThreadOk(s', t')
  {
    forall t' | t' != t
      ensures ThreadOk(s', t')
    {
      assert ThreadOk(s, t') && PcOf(s', t') == PcOf(s, t');
      assert InFlight(t') !in mine by { assert !Private(s, t, InFlight(t')); }
      if PcOf(s, t') == Deleting {
        DeletingKept(s, s', t, mine, t');
      }
    }
  }

  lemma DeletingKept(s: State, s': State, t: nat, mine: set<Owner>, t': nat)
    requires NoDanglers(s) && Local(s, s', t, mine) && ThreadOk(s, t') && PcOf(s, t') == Deleting && t' != t
    requires InFlight(t') !in mine
    ensures Owners(s'.held, s.held[InFlight(t')].r) == {InFlight(t')}
  {
    var r := s.held[InFlight(t')].r;
    forall o | o in s'.held && s'.held[o] == External(r)
      ensures o == InFlight(t')
    {
      if o in mine {
        var o2 :| o2 in s.held && s.held[o2] == External(r) && (o2.Handle? || o2 == InFlight(t));
        OwnerHolds(s.held, o2, r);
      } else {
        OwnerHolds(s.held, o, r);
      }
    }
  }

  /** A step that ends with the thread using no object. */
  lemma Conclude(s: State, s': State, t: nat, mine: set<Owner>)
    requires Inv(s) && Local(s, s', t, mine) && Balanced(s') && Accounted(s') && ThreadOk(s', t)
    requires !PcOf(s', t).Copying? && !PcOf(s', t).Assigning?
    ensures Inv(s')
  {
    hide Counted, Owners, Clash, Accounted, ThreadOk, Private, FromElsewhere;
    OthersKept(s, s', t, mine);
    StillApart(s, s', t);
  }

  /** The other threads are where they were, and this one uses no object now. */
  lemma StillApart(s: State, s': State, t: nat)
    requires Apart(s) && forall t' :: t' != t ==> PcOf(s', t') == PcOf(s, t')
    requires !PcOf(s', t).Copying? && !PcOf(s', t).Assigning?
    ensures Apart(s')
  {
    forall t1, t2 | t1 != t2
      ensures !Clash(PcOf(s', t1), PcOf(s', t2))
    {
      assert !Clash(PcOf(s, t1), PcOf(s, t2));
    }
  }

  lemma SameAccounts(s: State, s': State)
    requires Accounted(s) && s'.reps.Keys == s.reps.Keys && s'.deleted == s.deleted && s'.next == s.next
    ensures Accounted(s')
  {
  }

  lemma NewAccount(s: State, h: nat, code: nat, message: string)
    requires Accounted(s)
    ensures Accounted(WithNewRep(s, h, code, message)) && s.next !in s.reps
  {
  }

  // ----- the steps -----

  lemma UnusedIsFree(s: State, h: nat)
    requires ThreadsOk(s) && Unused(s, h)
    ensures forall t :: !Uses(PcOf(s, t), h)
  {
    forall t
      ensures !Uses(PcOf(s, t), h)
    {
      assert ThreadOk(s, t);
    }
  }

  lemma MakeFine(s: State, t: nat, h: nat, code: nat, message: string)
    requires Inv(s) && Enabled(s, t, Make(h, code, message))
    ensures Fine(s, t, Make(h, code, message))
  {
    assert ThreadOk(s, t);
    UnusedIsFree(s, h);
    ObjectIsPrivate(s, t, h);
    if code != 0 && message != "" {
      MadeRep(s, t, h, code, message);
    } else {
      MadeInline(s, t, h, code);
    }
  }

  lemma MadeRep(s: State, t: nat, h: nat, code: nat, message: string)
    requires Inv(s) && PcOf(s, t) == Idle && ThreadOk(s, t) && Handle(h) !in s.held && Private(s, t, Handle(h))
    ensures Inv(WithNewRep(s, h, code, message))
  {
    hide Counted, Clash, Owners, Private, Accounted, ThreadsOk, Apart, CountsOk;
    var s' := WithNewRep(s, h, code, message);
    NewAccount(s, h, code, message);
    assert FromElsewhere(s, t, External(s.next));
    NewRepBalanced(s, h, code, message);
    assert Local(s, s', t, {Handle(h)});
    Conclude(s, s', t, {Handle(h)});
  }

  lemma MadeInline(s: State, t: nat, h: nat, code: nat)
    requires Inv(s) && PcOf(s, t) == Idle && ThreadOk(s, t) && Handle(h) !in s.held && Private(s, t, Handle(h))
    ensures Inv(Put(s, Handle(h), Inlined(code, false)))
  {
    var s' := Put(s, Handle(h), Inlined(code, false));
    SameAccounts(s, s');
    assert FromElsewhere(s, t, Inlined(code, false));
    hide Counted, Clash, Owners, Private, FromElsewhere, Accounted;
    InlineChanges(s, s', Handle(h));
    assert Local(s, s', t, {Handle(h)});
    hide Balanced, ThreadsOk, Apart, Local, NoDanglers;
    Conclude(s, s', t, {Handle(h)});
  }

  lemma ReadFine(s: State, t: nat, h: nat, src: nat, pc: Pc)
    requires Inv(s) && PcOf(s, t) == Idle && Readable(s, src)
    requires (pc == Copying(h, src, s.held[Handle(src)]) && Unused(s, h))
          || (pc == Assigning(h, src, s.held[Handle(src)]) && Writable(s, h) && s.held[Handle(h)] != s.held[Handle(src)])
    ensures Inv(At(s, t, pc))
  {
    var s' := At(s, t, pc);
    hide Owners, Counted;
    PlacesBalanced(s, s');
    SameAccounts(s, s');
    forall t'
      ensures ThreadOk(s', t')
    {
      assert ThreadOk(s, t') && ThreadOk(s, t);
    }
    forall t1, t2 | t1 != t2
      ensures !Clash(PcOf(s', t1), PcOf(s', t2))
    {
      assert !Clash(PcOf(s, t1), PcOf(s, t2)) && !Writes(PcOf(s, t1), src) && !Writes(PcOf(s, t1), h);
      assert ThreadOk(s, t2) && !Writes(PcOf(s, t2), h);
      if pc.Assigning? {
        assert !Uses(PcOf(s, t1), h) && !Uses(PcOf(s, t2), h);
      }
    }
  }

  lemma CopyRefFine(s: State, t: nat)
    requires Inv(s) && Enabled(s, t, CopyRef)
    ensures Fine(s, t, CopyRef)
  {
    hide Counted, Clash, Owners, Private, Accounted, ThreadsOk, Apart, CountsOk;
    InvThread(s, t);
    var Copying(h, src, w) := s.pcs[t];
    GainBalanced(s, Handle(h), w, Handle(src));
    var s1 := Gain(s, Handle(h), w);
    var s' := At(s1, t, Idle);
    assert Apply(s, t, CopyRef) == Some(s');
    TargetIsPrivate(s, t);
    FromObject(s, t, src);
    PlacesBalanced(s1, s');
    SameAccounts(s, s');
    Conclude(s, s', t, {Handle(h)});
  }

  /** The object gives up its word; a rep goes into the hands of the thread. */
  function LetGo(s: State, t: nat, h: nat): State
    requires Handle(h) in s.held
  {
    if s.held[Handle(h)].External? then Rename(s, Handle(h), InFlight(t)) else Drop(s, Handle(h))
  }

  lemma LetGoBalanced(s: State, t: nat, h: nat)
    requires Balanced(s) && Handle(h) in s.held && InFlight(t) !in s.held
    ensures Balanced(LetGo(s, t, h))
  {
    hide Counted;
    if s.held[Handle(h)].External? {
      RenameBalanced(s, Handle(h), InFlight(t));
    } else {
      InlineChanges(s, Drop(s, Handle(h)), Handle(h));
    }
  }

  /** The object `h` was given another word; its old one is with the thread if it is a rep. */
  ghost predicate Overwritten(s: State, s': State, t: nat, h: nat, w: Word)
    requires Handle(h) in s.held
  {
    var old_rep, held1 := s.held[Handle(h)], s.held[Handle(h) := w];
    && s'.held == (if old_rep.External? then held1[InFlight(t) := old_rep] else held1)
    && s'.pcs == s.pcs[t := if old_rep.External? then Releasing else Idle]
  }

  lemma OverwrittenLocal(s: State, s': State, t: nat, h: nat, w: Word)
    requires Handle(h) in s.held && Overwritten(s, s', t, h, w)
    requires Private(s, t, Handle(h)) && Private(s, t, InFlight(t)) && FromElsewhere(s, t, w)
    ensures Local(s, s', t, {Handle(h), InFlight(t)})
  {
    FromObject(s, t, h);
    hide Private, FromElsewhere;
    if s.held[Handle(h)].Inlined? && InFlight(t) in s.held {
      OwnToken(s, t);
    }
  }

  lemma OwnToken(s: State, t: nat)
    requires InFlight(t) in s.held
    ensures FromElsewhere(s, t, s.held[InFlight(t)])
  {
  }

  lemma OverwrittenInv(s: State, s': State, t: nat, h: nat, w: Word)
    requires Inv(s) && Handle(h) in s.held && InFlight(t) !in s.held && Overwritten(s, s', t, h, w)
    requires Private(s, t, Handle(h)) && Private(s, t, InFlight(t)) && FromElsewhere(s, t, w)
    requires Balanced(s') && Accounted(s')
    ensures Inv(s')
  {
    hide Private, FromElsewhere, Balanced, Accounted, ThreadsOk, Apart, Owners;
    OverwrittenLocal(s, s', t, h, w);
    hide Local;
    Conclude(s, s', t, {Handle(h), InFlight(t)});
  }

  lemma AssignBalanced(s: State, s': State, t: nat, dst: nat, src: nat, w: Word)
    requires Balanced(s) && Handle(dst) in s.held && Handle(src) in s.held && dst != src && s.held[Handle(src)] == w
    requires InFlight(t) !in s.held && PcOf(s, t).Assigning? && Overwritten(s, s', t, dst, w)
    requires w.External? ==> w.r in s.reps
    requires s'.reps == Gain(s, Handle(dst), w).reps
    ensures Balanced(s')
  {
    hide Balanced;
    LetGoBalanced(s, t, dst);
    var s1 := LetGo(s, t, dst);
    GainBalanced(s1, Handle(dst), w, Handle(src));
    var s2 := Gain(s1, Handle(dst), w);
    assert s'.held == s2.held;
    PlacesBalanced(s2, s');
  }

  lemma AssignRefFine(s: State, t: nat)
    requires Inv(s) && Enabled(s, t, AssignRef)
    ensures Fine(s, t, AssignRef)
  {
    assert ThreadOk(s, t);
    var Assigning(dst, src, w) := s.pcs[t];
    assert Apply(s, t, AssignRef).Some?;
    var s' := Apply(s, t, AssignRef).value;
    assert Overwritten(s, s', t, dst, w) && s'.reps == Gain(s, Handle(dst), w).reps;
    SameAccounts(s, s');
    TargetIsPrivate(s, t);
    FromObject(s, t, src);
    hide Apply, Private, FromElsewhere, Accounted, Overwritten, Gain, Clash, Owners, Counted;
    AssignBalanced(s, s', t, dst, src, w);
    hide Balanced, ThreadsOk, Apart;
    OverwrittenInv(s, s', t, dst, w);
  }

  // ----- moving -----

  lemma MoveMakeFine(s: State, t: nat, h: nat, src: nat)
    requires Inv(s) && Enabled(s, t, MoveMake(h, src))
    ensures Fine(s, t, MoveMake(h, src))
  {
    assert ThreadOk(s, t);
    var s' := Apply(s, t, MoveMake(h, src)).value;
    MoveMakeBalanced(s, s', h, src);
    UnusedIsFree(s, h);
    ObjectIsPrivate(s, t, h);
    ObjectIsPrivate(s, t, src);
    FromObject(s, t, src);
    assert FromElsewhere(s, t, MOVED_FROM);
    SameAccounts(s, s');
    hide Private, FromElsewhere, Accounted, Owners, Counted, Balanced, ThreadsOk, Apart, Clash;
    assert Local(s, s', t, {Handle(h), Handle(src)});
    hide Local;
    Conclude(s, s', t, {Handle(h), Handle(src)});
  }

  lemma MoveMakeBalanced(s: State, s': State, h: nat, src: nat)
    requires Balanced(s) && Handle(h) !in s.held && Handle(src) in s.held
    requires s' == s.(held := s.held[Handle(h) := s.held[Handle(src)]][Handle(src) := MOVED_FROM])
    ensures Balanced(s')
  {
    RenameBalanced(s, Handle(src), Handle(h));
    InlineChanges(Rename(s, Handle(src), Handle(h)), s', Handle(src));
  }

  /** `dst` takes over the word of `src`, which becomes moved from. */
  ghost predicate TakenOver(s: State, s': State, t: nat, dst: nat, src: nat)
    requires Handle(dst) in s.held && Handle(src) in s.held
  {
    var old_rep, held1 := s.held[Handle(dst)], s.held[Handle(dst) := s.held[Handle(src)]][Handle(src) := MOVED_FROM];
    && s'.held == (if old_rep.External? then held1[InFlight(t) := old_rep] else held1)
    && s'.pcs == s.pcs[t := if old_rep.External? then Releasing else Idle]
  }

  lemma MoveBalanced(s: State, s': State, t: nat, dst: nat, src: nat)
    requires Balanced(s) && Handle(dst) in s.held && Handle(src) in s.held && dst != src
    requires InFlight(t) !in s.held && PcOf(s, t) == Idle && TakenOver(s, s', t, dst, src) && s'.reps == s.reps
    ensures Balanced(s')
  {
    hide Balanced;
    LetGoBalanced(s, t, dst);
    var s1 := LetGo(s, t, dst);
    RenameBalanced(s1, Handle(src), Handle(dst));
    var s2 := Rename(s1, Handle(src), Handle(dst));
    InlineChanges(s2, Put(s2, Handle(src), MOVED_FROM), Handle(src));
    var s3 := Put(s2, Handle(src), MOVED_FROM);
    assert s'.held == s3.held;
    PlacesBalanced(s3, s');
  }

  lemma TakenOverLocal(s: State, s': State, t: nat, dst: nat, src: nat)
    requires Handle(dst) in s.held && Handle(src) in s.held && InFlight(t) !in s.held && TakenOver(s, s', t, dst, src)
    requires Private(s, t, Handle(dst)) && Private(s, t, Handle(src)) && Private(s, t, InFlight(t))
    ensures Local(s, s', t, {Handle(dst), Handle(src), InFlight(t)})
  {
    FromObject(s, t, dst);
    FromObject(s, t, src);
    assert FromElsewhere(s, t, MOVED_FROM);
    hide Private, FromElsewhere;
  }

  lemma MoveAssignFine(s: State, t: nat, dst: nat, src: nat)
    requires Inv(s) && Enabled(s, t, MoveAssign(dst, src))
    ensures Fine(s, t, MoveAssign(dst, src))
  {
    assert ThreadOk(s, t);
    if s.held[Handle(src)] != s.held[Handle(dst)] {
      var s' := Apply(s, t, MoveAssign(dst, src)).value;
      assert TakenOver(s, s', t, dst, src) && s'.reps == s.reps;
      SameAccounts(s, s');
      ObjectIsPrivate(s, t, dst);
      ObjectIsPrivate(s, t, src);
      hide Apply, Private, Accounted, TakenOver, Owners, Counted, Balanced, ThreadsOk, Apart, Clash, Local;
      MoveBalanced(s, s', t, dst, src);
      TakenOverLocal(s, s', t, dst, src);
      TakenOverThread(s, s', t, dst, src);
      Conclude(s, s', t, {Handle(dst), Handle(src), InFlight(t)});
    }
  }

  lemma TakenOverThread(s: State, s': State, t: nat, dst: nat, src: nat)
    requires Handle(dst) in s.held && Handle(src) in s.held && InFlight(t) !in s.held && TakenOver(s, s', t, dst, src)
    ensures ThreadOk(s', t) && !PcOf(s', t).Copying? && !PcOf(s', t).Assigning?
  {
  }

  lemma SwapFine(s: State, t: nat, a: nat, b: nat)
    requires Inv(s) && Enabled(s, t, Swap(a, b))
    ensures Fine(s, t, Swap(a, b))
  {
    hide Counted, Clash, Owners, Private, FromElsewhere, Accounted, ThreadsOk, Apart, CountsOk, NoDanglers;
    InvThread(s, t);
    var s' := Apply(s, t, Swap(a, b)).value;
    if a == b {
      assert s'.held == s.held;
    } else {
      SwapBalanced(s, s', t, a, b);
      ObjectIsPrivate(s, t, a);
      ObjectIsPrivate(s, t, b);
      FromObject(s, t, a);
      FromObject(s, t, b);
      SameAccounts(s, s');
      assert Local(s, s', t, {Handle(a), Handle(b)});
      Conclude(s, s', t, {Handle(a), Handle(b)});
    }
  }

  lemma SwapBalanced(s: State, s': State, t: nat, a: nat, b: nat)
    requires Balanced(s) && Handle(a) in s.held && Handle(b) in s.held && a != b
    requires InFlight(t) !in s.held && PcOf(s, t) == Idle
    requires s' == s.(held := s.held[Handle(a) := s.held[Handle(b)]][Handle(b) := s.held[Handle(a)]])
    ensures Balanced(s')
  {
    hide Balanced;
    RenameBalanced(s, Handle(a), InFlight(t));
    var s1 := Rename(s, Handle(a), InFlight(t));
    RenameBalanced(s1, Handle(b), Handle(a));
    var s2 := Rename(s1, Handle(b), Handle(a));
    RenameBalanced(s2, InFlight(t), Handle(b));
    assert s'.held == Rename(s2, InFlight(t), Handle(b)).held;
  }

  // ----- destroying and detaching -----

  ghost predicate Destroyed(s: State, s': State, t: nat, h: nat)
    requires Handle(h) in s.held
  {
    var old_rep, held1 := s.held[Handle(h)], s.held - {Handle(h)};
    && s'.held == (if old_rep.External? then held1[InFlight(t) := old_rep] else held1)
    && s'.pcs == s.pcs[t := if old_rep.External? then Releasing else Idle]
  }

  lemma DestroyedInv(s: State, s': State, t: nat, h: nat)
    requires Inv(s) && Handle(h) in s.held && InFlight(t) !in s.held && Destroyed(s, s', t, h)
    requires Private(s, t, Handle(h)) && Private(s, t, InFlight(t)) && Balanced(s') && Accounted(s')
    ensures Inv(s')
  {
    hide Private, FromElsewhere, Balanced, Accounted, ThreadsOk, Apart, Owners, CountsOk, NoDanglers, Counted;
    FromObject(s, t, h);
    assert Local(s, s', t, {Handle(h), InFlight(t)});
    Conclude(s, s', t, {Handle(h), InFlight(t)});
  }

  lemma DestroyFine(s: State, t: nat, h: nat)
    requires Inv(s) && Enabled(s, t, Destroy(h))
    ensures Fine(s, t, Destroy(h))
  {
    assert ThreadOk(s, t);
    var s1, s' := LetGo(s, t, h), Apply(s, t, Destroy(h)).value;
    LetGoBalanced(s, t, h);
    ObjectIsPrivate(s, t, h);
    SameAccounts(s, s');
    assert Destroyed(s, s', t, h);
    assert s'.held == s1.held;
    hide Private, Accounted, Owners, Counted, Balanced, ThreadsOk, Apart, Clash, Destroyed;
    PlacesBalanced(s1, s');
    DestroyedInv(s, s', t, h);
  }

  lemma DetachBalanced(s: State, s': State, t: nat, h: nat, code: nat, message: string)
    requires Balanced(s) && Handle(h) in s.held && s.next !in s.reps
    requires InFlight(t) !in s.held && PcOf(s, t) == Idle && Overwritten(s, s', t, h, External(s.next))
    requires s'.reps == s.reps[s.next := Rep(1, code, message)]
    ensures Balanced(s')
  {
    hide Balanced;
    LetGoBalanced(s, t, h);
    var s1 := LetGo(s, t, h);
    NewRepBalanced(s1, h, code, message);
    var s2 := WithNewRep(s1, h, code, message);
    assert s'.held == s2.held;
    PlacesBalanced(s2, s');
  }

  lemma PrepareFine(s: State, t: nat, h: nat)
    requires Inv(s) && Enabled(s, t, PrepareToModify(h))
    ensures Fine(s, t, PrepareToModify(h))
  {
    assert ThreadOk(s, t);
    var w := s.held[Handle(h)];
    if w.Inlined? || s.reps[w.r].count != 1 {
      var s' := Apply(s, t, PrepareToModify(h)).value;
      var code, message := if w.Inlined? then w.code else s.reps[w.r].code, if w.Inlined? then "" else s.reps[w.r].message;
      NewAccount(s, h, code, message);
      SameAccounts(WithNewRep(s, h, code, message), s');
      assert Overwritten(s, s', t, h, External(s.next));
      assert s'.reps == s.reps[s.next := Rep(1, code, message)];
      ObjectIsPrivate(s, t, h);
      assert FromElsewhere(s, t, External(s.next));
      hide Apply, Private, FromElsewhere, Accounted, Overwritten, Owners, Counted, Balanced, ThreadsOk, Apart, Clash;
      DetachBalanced(s, s', t, h, code, message);
      OverwrittenInv(s, s', t, h, External(s.next));
    }
  }

  // ----- releasing -----

  /** Only the thread's place and token change. */
  lemma TokenLocal(s: State, s': State, t: nat)
    requires s'.pcs == s.pcs[t := PcOf(s', t)] && (s'.held == s.held || s'.held == s.held - {InFlight(t)})
    ensures Local(s, s', t, {InFlight(t)})
  {
    if InFlight(t) in s.held {
      OwnToken(s, t);
    }
  }

  lemma OnlyOne(o: Owner, owners: set<Owner>)
    requires o in owners && |owners| == 1
    ensures owners == {o}
  {
    assert |owners - {o}| == 0;
  }

  /** A thread that found the count to be one is the last owner. */
  lemma ReleaseLoadFine(s: State, t: nat)
    requires Inv(s) && Enabled(s, t, ReleaseLoad)
    ensures Fine(s, t, ReleaseLoad)
  {
    assert ThreadOk(s, t);
    var r := s.held[InFlight(t)].r;
    var s' := Apply(s, t, ReleaseLoad).value;
    OwnerHolds(s.held, InFlight(t), r);
    CountIsExact(s, r, InFlight(t));
    if s.reps[r].count == 1 {
      OnlyOne(InFlight(t), Owners(s.held, r));
    }
    PlacesBalanced(s, s');
    SameAccounts(s, s');
    TokenLocal(s, s', t);
    hide Accounted, Owners, Counted, Balanced, ThreadsOk, Apart, Clash, Local;
    Conclude(s, s', t, {InFlight(t)});
  }

  /** The count after a decrement, and whose token is left. */
  ghost predicate Subtracted(s: State, s': State, t: nat, r: nat)
    requires r in s.reps
  {
    && s'.reps == s.reps[r := s.reps[r].(count := s.reps[r].count - 1)]
    && s'.held == (if s.reps[r].count == 1 then s.held else s.held - {InFlight(t)})
    && s'.pcs == s.pcs[t := if s.reps[r].count == 1 then Deleting else Idle]
  }

  lemma SubCounted(s: State, s': State, t: nat, r: nat)
    requires r in s.reps && Subtracted(s, s', t, r) && InFlight(t) in s.held && s.held[InFlight(t)] == External(r)
    requires s.reps[r].count == Owning(s.held, r)
    ensures Counted(s', r)
    ensures s.reps[r].count == 1 ==> Owners(s'.held, r) == {InFlight(t)}
  {
    OwnerHolds(s.held, InFlight(t), r);
    if s.reps[r].count == 1 {
      OnlyOne(InFlight(t), Owners(s.held, r));
      assert PcOf(s', t) == Deleting;
    } else {
      OwnedLess(s.held, s'.held, InFlight(t), r);
    }
  }

  lemma SubBalanced(s: State, s': State, t: nat, r: nat)
    requires Balanced(s) && PcOf(s, t) == Subbing && r in s.reps && Subtracted(s, s', t, r)
    requires InFlight(t) in s.held && s.held[InFlight(t)] == External(r) && Counted(s', r)
    ensures Balanced(s')
  {
    hide Owners, Counted;
    forall r' | r' in s'.reps
      ensures Counted(s', r')
    {
      if r' != r {
        OwnedSame(s.held, s'.held, InFlight(t), r');
        CountedKept(s, s', r');
      }
    }
  }

  /** What ReleaseSub does, once the invariant has told that the count is exact. */
  lemma SubSteps(s: State, t: nat)
    requires Inv(s) && Enabled(s, t, ReleaseSub)
    ensures InFlight(t) in s.held && s.held[InFlight(t)].External? && s.held[InFlight(t)].r in s.reps
    ensures var r := s.held[InFlight(t)].r;
            s.reps[r].count == Owning(s.held, r) && PcOf(s, t) == Subbing
    ensures Apply(s, t, ReleaseSub).Some?
    ensures var s' := Apply(s, t, ReleaseSub).value;
            Subtracted(s, s', t, s.held[InFlight(t)].r) && s'.next == s.next && s'.deleted == s.deleted
  {
    hide Apart, Accounted, Owning;
    InvThread(s, t);
    var r := s.held[InFlight(t)].r;
    OwnerHolds(s.held, InFlight(t), r);
    CountIsExact(s, r, InFlight(t));
  }

  lemma SubThread(s: State, s': State, t: nat, r: nat)
    requires r in s.reps && Subtracted(s, s', t, r) && InFlight(t) in s.held && s.held[InFlight(t)] == External(r)
    requires s.reps[r].count == 1 ==> Owners(s'.held, r) == {InFlight(t)}
    ensures s'.reps.Keys == s.reps.Keys && ThreadOk(s', t) && Local(s, s', t, {InFlight(t)})
    ensures !PcOf(s', t).Copying? && !PcOf(s', t).Assigning?
  {
    hide Local;
    TokenLocal(s, s', t);
  }

  lemma ReleaseSubFine(s: State, t: nat)
    requires Inv(s) && Enabled(s, t, ReleaseSub)
    ensures Fine(s, t, ReleaseSub)
  {
    hide Apply, Owners, Counted, Accounted, ThreadsOk, Apart, Clash, Local, CountsOk, NoDanglers, Owning, Enabled;
    SubSteps(s, t);
    var r := s.held[InFlight(t)].r;
    var s' := Apply(s, t, ReleaseSub).value;
    SubCounted(s, s', t, r);
    SubBalanced(s, s', t, r);
    SubThread(s, s', t, r);
    SameAccounts(s, s');
    Conclude(s, s', t, {InFlight(t)});
  }

  lemma DeleteBalanced(s: State, s': State, t: nat, r: nat)
    requires Balanced(s) && InFlight(t) in s.held && s.held[InFlight(t)] == External(r)
    requires Owners(s.held, r) == {InFlight(t)}
    requires s'.reps == s.reps - {r} && s'.held == s.held - {InFlight(t)} && s'.pcs == s.pcs[t := Idle]
    ensures Balanced(s')
  {
    forall o | o in s'.held && s'.held[o].External?
      ensures s'.held[o].r in s'.reps
    {
      OwnerHolds(s.held, o, r);
    }
    hide Owners, Counted;
    forall r' | r' in s'.reps
      ensures Counted(s', r')
    {
      OwnedSame(s.held, s'.held, InFlight(t), r');
      OwnerHolds(s.held, InFlight(t), r');
      CountedKept(s, s', r');
    }
  }

  lemma OneLess(s: State, s': State, r: nat)
    requires Accounted(s) && r in s.reps && s'.reps == s.reps - {r} && s'.deleted == s.deleted + [r] && s'.next == s.next
    ensures Accounted(s')
  {
  }

  lemma ReleaseDeleteFine(s: State, t: nat)
    requires Inv(s) && Enabled(s, t, ReleaseDelete)
    ensures Fine(s, t, ReleaseDelete)
  {
    assert ThreadOk(s, t);
    var r := s.held[InFlight(t)].r;
    var s' := Apply(s, t, ReleaseDelete).value;
    DeleteBalanced(s, s', t, r);
    OneLess(s, s', r);
    TokenLocal(s, s', t);
    hide Accounted, Owners, Counted, Balanced, ThreadsOk, Apart, Clash, Local;
    Conclude(s, s', t, {InFlight(t)});
  }

  lemma StepFine(s: State, t: nat, a: Action)
    requires Inv(s) && Enabled(s, t, a)
    ensures Fine(s, t, a)
  {
    hide Inv, Fine;
    match a {
      case Make(h, code, message) => MakeFine(s, t, h, code, message);
      case CopyRead(h, src) => CopyReadFine(s, t, h, src);
      case CopyRef => CopyRefFine(s, t);
      case AssignRead(dst, src) => AssignReadFine(s, t, dst, src);
      case AssignRef => AssignRefFine(s, t);
      case MoveMake(h, src) => MoveMakeFine(s, t, h, src);
      case MoveAssign(dst, src) => MoveAssignFine(s, t, dst, src);
      case Swap(x, y) => SwapFine(s, t, x, y);
      case Destroy(h) => DestroyFine(s, t, h);
      case PrepareToModify(h) => PrepareFine(s, t, h);
      case ReleaseLoad => ReleaseLoadFine(s, t);
      case ReleaseSub => ReleaseSubFine(s, t);
      case ReleaseDelete => ReleaseDeleteFine(s, t);
    }
  }

  lemma CopyReadFine(s: State, t: nat, h: nat, src: nat)
    requires Inv(s) && Enabled(s, t, CopyRead(h, src))
    ensures Fine(s, t, CopyRead(h, src))
  {
    assert ThreadOk(s, t);
    ReadFine(s, t, h, src, Copying(h, src, s.held[Handle(src)]));
  }

  lemma AssignReadFine(s: State, t: nat, dst: nat, src: nat)
    requires Inv(s) && Enabled(s, t, AssignRead(dst, src))
    ensures Fine(s, t, AssignRead(dst, src))
  {
    assert ThreadOk(s, t);
    if s.held[Handle(src)] != s.held[Handle(dst)] {
      ReadFine(s, t, dst, src, Assigning(dst, src, s.held[Handle(src)]));
    }
  }

  // ----- every run -----

  /** A run: any threads, any interleaving, each step allowed by the caller's duties. */
  ghost predicate IsRun(states: seq<State>, steps: seq<(nat, Action)>) {
    && |states| == |steps| + 1 && states[0] == INITIAL
    && forall i :: 0 <= i < |steps| ==>
         && Enabled(states[i], steps[i].0, steps[i].1)
         && Apply(states[i], steps[i].0, steps[i].1) == Some(states[i + 1])
  }

  lemma {:induction false} RunKeepsInv(states: seq<State>, steps: seq<(nat, Action)>, i: nat)
    requires IsRun(states, steps) && i < |states|
    ensures Inv(states[i])
    decreases i
  {
    if i == 0 {
      InitialHolds();
    } else {
      RunKeepsInv(states, steps, i - 1);
      StepFine(states[i - 1], steps[i - 1].0, steps[i - 1].1);
    }
  }

  /** In every state of every run: whatever a thread does next, it touches no
      rep that is gone; a rep that a status object points to is alive and its
      count is the number of its owners; and every rep ever made is alive or has
      been deleted exactly once. */
  lemma EveryRunIsSafe(states: seq<State>, steps: seq<(nat, Action)>, i: nat)
    requires IsRun(states, steps) && i < |states|
    ensures forall t, a :: Enabled(states[i], t, a) ==> Apply(states[i], t, a).Some?
    ensures forall h :: Handle(h) in states[i].held && states[i].held[Handle(h)].External? ==>
              var r := states[i].held[Handle(h)].r;
              r in states[i].reps && r !in states[i].deleted && states[i].reps[r].count == Owning(states[i].held, r)
    ensures forall r: nat :: r < states[i].next ==> (r in states[i].reps) != (r in states[i].deleted)
    ensures forall j, k :: 0 <= j < k < |states[i].deleted| ==> states[i].deleted[j] != states[i].deleted[k]
  {
    var s := states[i];
    RunKeepsInv(states, steps, i);
    forall t, a | Enabled(s, t, a)
      ensures Apply(s, t, a).Some?
    {
      hide Apply, Enabled, Inv;
      StepFine(s, t, a);
    }
    forall h | Handle(h) in s.held && s.held[Handle(h)].External?
      ensures s.held[Handle(h)].r in s.reps && s.reps[s.held[Handle(h)].r].count == Owning(s.held, s.held[Handle(h)].r)
    {
      OwnerHolds(s.held, Handle(h), s.held[Handle(h)].r);
      CountIsExact(s, s.held[Handle(h)].r, Handle(h));
    }
  }

  /** When every status object is gone and every thread is done, no rep is left. */
  lemma NothingLeaks(states: seq<State>, steps: seq<(nat, Action)>)
    requires IsRun(states, steps)
    requires var s := states[|steps|];
             (forall h :: Handle(h) !in s.held) && (forall t :: PcOf(s, t) == Idle)
    ensures states[|steps|].reps == map[]
    ensures forall r: nat :: r < states[|steps|].next ==> r in states[|steps|].deleted
  {
    var s := states[|steps|];
    RunKeepsInv(states, steps, |steps|);
    forall o
      ensures o !in s.held
    {
      if o.InFlight? {
        assert ThreadOk(s, o.t);
      }
    }
    forall r
      ensures r !in s.reps
    {
      assert Owners(s.held, r) == {};
      assert r in s.reps ==> Counted(s, r);
    }
  }

  // ----- values -----

  const MOVED_FROM_STRING := "Status accessed after move."

  /** What raw_code and message tell about an object. */
  function Value(s: State, h: nat): (int, string)
    requires Handle(h) in s.held && (s.held[Handle(h)].External? ==> s.held[Handle(h)].r in s.reps)
  {
    match s.held[Handle(h)]
    case Inlined(code, moved) => (code, if moved then MOVED_FROM_STRING else "")
    case External(r) => (s.reps[r].code, s.reps[r].message)
  }

  /** The objects a step gives another word, or ends. */
  predicate Changes(pc: Pc, a: Action, h: nat) {
    match a
    case Make(x, _, _) => x == h
    case CopyRef => pc.Copying? && pc.h == h
    case AssignRef => pc.Assigning? && pc.dst == h
    case MoveMake(x, src) => x == h || src == h
    case MoveAssign(dst, src) => dst == h || src == h
    case Swap(x, y) => x == h || y == h
    case Destroy(x) => x == h
    case PrepareToModify(x) => x == h
    case _ => false
  }

  /** A step leaves the value of every other object alone, whoever shares its rep. */
  lemma OthersKeepValue(s: State, t: nat, a: Action, h: nat)
    requires Inv(s) && Enabled(s, t, a) && Handle(h) in s.held && !Changes(PcOf(s, t), a, h)
    ensures Inv(s) && Apply(s, t, a).Some? && Handle(h) in Apply(s, t, a).value.held && Inv(Apply(s, t, a).value)
    ensures Value(Apply(s, t, a).value, h) == Value(s, h)
  {
    StepFine(s, t, a);
    assert ThreadOk(s, t);
    if a == ReleaseDelete {
      OwnerHolds(s.held, Handle(h), s.held[InFlight(t)].r);
    }
    WordKept(s, t, a, h);
    hide Counted, ThreadsOk, ThreadOk, Apart, Owners, Apply, Accounted;
    if s.held[Handle(h)].External? {
      ContentKept(s, t, a, s.held[Handle(h)].r);
    }
  }

  lemma WordKept(s: State, t: nat, a: Action, h: nat)
    requires Enabled(s, t, a) && Apply(s, t, a).Some? && Handle(h) in s.held && !Changes(PcOf(s, t), a, h)
    ensures Handle(h) in Apply(s, t, a).value.held && Apply(s, t, a).value.held[Handle(h)] == s.held[Handle(h)]
  {
  }

  /** No step changes code or message of a rep. */
  lemma ContentKept(s: State, t: nat, a: Action, r: nat)
    requires Enabled(s, t, a) && Apply(s, t, a).Some? && r in s.reps && r in Apply(s, t, a).value.reps && r != s.next
    ensures Apply(s, t, a).value.reps[r].code == s.reps[r].code && Apply(s, t, a).value.reps[r].message == s.reps[r].message
  {
  }

  /** Copies and moves carry the value over; an assignment shares the rep of its source. */
  lemma StepValues(s: State, t: nat, a: Action)
    requires Inv(s) && Enabled(s, t, a)
    ensures Apply(s, t, a).Some? && Inv(Apply(s, t, a).value)
    ensures var s' := Apply(s, t, a).value;
            match a
            case Make(h, code, message) => Handle(h) in s'.held && Value(s', h) == (code, if code != 0 then message else "")
            case CopyRef =>
              var Copying(h, src, _) := s.pcs[t];
              Handle(h) in s'.held && Handle(src) in s.held && Value(s', h) == Value(s, src)
            case AssignRef =>
              var Assigning(dst, src, _) := s.pcs[t];
              Handle(dst) in s'.held && Handle(src) in s.held && Value(s', dst) == Value(s, src)
            case CopyRead(h, src) => s'.held == s.held && s'.pcs == s.pcs[t := Copying(h, src, s.held[Handle(src)])]
            case AssignRead(dst, src) =>
              && s'.held == s.held
              && (Value(s', dst) == Value(s, src) || s'.pcs == s.pcs[t := Assigning(dst, src, s.held[Handle(src)])])
            case MoveMake(h, src) =>
              && Handle(h) in s'.held && Value(s', h) == Value(s, src)
              && Handle(src) in s'.held && Value(s', src) == (13, "Status accessed after move.")
            case MoveAssign(dst, src) =>
              && Handle(dst) in s'.held && Value(s', dst) == Value(s, src) && Handle(src) in s'.held
              && if s.held[Handle(src)] == s.held[Handle(dst)] then s'.held == s.held
                 else Value(s', src) == (13, "Status accessed after move.")
            case Swap(x, y) =>
              && Handle(x) in s'.held && Handle(y) in s'.held
              && Value(s', x) == Value(s, y) && Value(s', y) == Value(s, x)
            case Destroy(h) => Handle(h) !in s'.held
            case _ => true
  {
    hide CountsOk, Counted, ThreadsOk, Apart, Owners, Accounted;
    InvThread(s, t);
    StepFine(s, t, a);
  }

  /** PrepareToModify keeps the value, but for the text of a moved-from status,
      and leaves the object as the only owner of its rep. */
  lemma PrepareIsExclusive(s: State, t: nat, h: nat)
    requires Inv(s) && Enabled(s, t, PrepareToModify(h))
    ensures Apply(s, t, PrepareToModify(h)).Some?
    ensures var w, s' := s.held[Handle(h)], Apply(s, t, PrepareToModify(h)).value;
            && Inv(s') && Handle(h) in s'.held && s'.held[Handle(h)].External?
            && Value(s', h) == (Value(s, h).0, if w.Inlined? && w.moved then "" else Value(s, h).1)
            && Owners(s'.held, s'.held[Handle(h)].r) == {Handle(h)}
  {
    hide CountsOk, ThreadsOk, Apart, Accounted, BeingDeleted;
    InvThread(s, t);
    StepFine(s, t, PrepareToModify(h));
    var s' := Apply(s, t, PrepareToModify(h)).value;
    var r := s'.held[Handle(h)].r;
    OwnerHolds(s'.held, Handle(h), r);
    InvCounted(s', r);
    CountIsExact(s', r, Handle(h));
    OnlyOne(Handle(h), Owners(s'.held, r));
  }

  /** rep_ as a number: a code in the bits above the lowest two, with 2 for
      moved from; a pointer plus one. Only a pointer is odd, and only OK is zero. */
  lemma WordLayout(code: nat, r: nat)
    ensures Encode(Inlined(code, false)) == 4 * code && Encode(Inlined(code, true)) == 4 * code + 2
    ensures Encode(External(r)) == 2 * r + 1
    ensures Encode(OK) == 0 && Encode(MOVED_FROM) == 54
    ensures forall w :: (Encode(w) % 2 == 1 <==> w.External?) && (Encode(w) == 0 <==> w == Inlined(0, false))
  {
  }

  // ----- what is OK -----

  /** No code is zero but that of an OK status. */
  ghost predicate CodesOk(s: State) {
    && (forall o :: o in s.held && s.held[o].Inlined? && s.held[o].moved ==> s.held[o].code != 0)
    && (forall r :: r in s.reps ==> s.reps[r].code != 0)
  }

  lemma CodesKept(s: State, t: nat, a: Action)
    requires CodesOk(s) && ThreadOk(s, t) && Enabled(s, t, a) && Apply(s, t, a).Some?
    ensures CodesOk(Apply(s, t, a).value)
  {
    hide Owners;
  }

  lemma RunSteps(states: seq<State>, steps: seq<(nat, Action)>, i: nat)
    requires IsRun(states, steps) && i < |steps|
    ensures Enabled(states[i], steps[i].0, steps[i].1)
    ensures Apply(states[i], steps[i].0, steps[i].1) == Some(states[i + 1])
  {
    hide Enabled, Apply;
  }

  lemma {:induction false} RunKeepsCodes(states: seq<State>, steps: seq<(nat, Action)>, i: nat)
    requires IsRun(states, steps) && i < |states|
    ensures CodesOk(states[i])
    decreases i
  {
    if i == 0 {
      InitialCodes();
    } else {
      var s, t := states[i - 1], steps[i - 1].0;
      RunKeepsInv(states, steps, i - 1);
      InvThread(s, t);
      RunKeepsCodes(states, steps, i - 1);
      RunSteps(states, steps, i - 1);
      hide CodesOk, Enabled, Apply, Inv, ThreadOk;
      CodesKept(s, t, steps[i - 1].1);
    }
  }

  lemma InitialCodes()
    ensures CodesOk(INITIAL)
  {
  }

  /** In every state of every run: an object is OK, that is, its word is the
      number zero, if and only if its code is zero; an OK object has no message. */
  lemma OkIsCodeZero(states: seq<State>, steps: seq<(nat, Action)>, i: nat, h: nat)
    requires IsRun(states, steps) && i < |states| && Handle(h) in states[i].held
    ensures Inv(states[i])
    ensures Encode(states[i].held[Handle(h)]) == 0 <==> Value(states[i], h).0 == 0
    ensures Value(states[i], h).0 == 0 ==> Value(states[i], h).1 == ""
  {
    hide IsRun, CountsOk, ThreadsOk, Apart, Accounted;
    RunKeepsInv(states, steps, i);
    RunKeepsCodes(states, steps, i);
  }

  // ----- no thread is stuck -----

  /** A thread inside an operation can always take its next step. */
  lemma NoThreadStuck(s: State, t: nat)
    requires PcOf(s, t) != Idle
    ensures Enabled(s, t, CopyRef) || Enabled(s, t, AssignRef)
            || Enabled(s, t, ReleaseLoad) || Enabled(s, t, ReleaseSub) || Enabled(s, t, ReleaseDelete)
  {
  }

  /** No other thread is copying or assigning to the object, or from it. */
  ghost predicate LeftAlone(s: State, h: nat) {
    forall t ::
      && (PcOf(s, t).Copying? ==> PcOf(s, t).h != h && PcOf(s, t).src != h)
      && (PcOf(s, t).Assigning? ==> PcOf(s, t).dst != h && PcOf(s, t).src != h)
  }

  /** No other thread is copying or assigning to the object; any number may be reading it. */
  ghost predicate OnlyRead(s: State, h: nat) {
    forall t :: (PcOf(s, t).Copying? ==> PcOf(s, t).h != h) && (PcOf(s, t).Assigning? ==> PcOf(s, t).dst != h)
  }

  /** An idle thread can begin any operation on objects that the others leave
      alone, whatever these do elsewhere; but PrepareToModify is not for an OK status. */
  lemma AllCanBegin(s: State, t: nat, x: nat, y: nat, new0: nat, code: nat, message: string)
    requires PcOf(s, t) == Idle && LeftAlone(s, x) && LeftAlone(s, y) && LeftAlone(s, new0)
    requires Handle(x) in s.held && Handle(y) in s.held && Handle(new0) !in s.held
    ensures Enabled(s, t, Make(new0, code, message)) && Enabled(s, t, MoveMake(new0, x))
    ensures Enabled(s, t, MoveAssign(x, y)) && Enabled(s, t, Swap(x, y))
    ensures Enabled(s, t, Destroy(x)) && (Enabled(s, t, PrepareToModify(x)) <==> s.held[Handle(x)] != Inlined(0, false))
  {
  }

  /** Many threads can copy and assign from one object at the same time. */
  lemma ReadersShare(s: State, t: nat, x: nat, y: nat, new0: nat)
    requires PcOf(s, t) == Idle && LeftAlone(s, x) && OnlyRead(s, y) && LeftAlone(s, new0)
    requires Handle(x) in s.held && Handle(y) in s.held && Handle(new0) !in s.held
    ensures Enabled(s, t, CopyRead(new0, y)) && Enabled(s, t, AssignRead(x, y))
  {
  }
}
