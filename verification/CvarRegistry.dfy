/**
 The registry of console variables in place: a fixed array of variables whose string values
 are shared with an interning table that counts references.  `others` are the references
 held by the rest of the program.  Two interned pointers are equal exactly when the texts
 are, so a slot is its text; a string handed in from outside may or may not be interned.
 */
module CvarRegistry {
  import opened Cvar

  const UNUSED := Cvar("", IntKind, 0, Number(0), Number(0), Number(0), Integers(0, 0), false)

  function ShouldFreeCurrent(c: Cvar): bool {
    c.current.Text? && c.current != c.latched && c.current != c.reset
  }

  function ShouldFreeLatched(c: Cvar): bool {
    c.latched.Text? && c.latched != c.current && c.latched != c.reset
  }

  /** Every variable is well formed, and every reference is held by exactly one holder. */
  ghost predicate Accounted(refs: multiset<string>, others: multiset<string>, cs: seq<Cvar>) {
    AllOk(cs) && refs == others + HeldAll(cs)
  }

  /**
   The table's count of a string is what others hold plus one for every variable that shows
   it in a slot or owns it as its name: nothing held is ever freed, and nothing leaks.
   */
  lemma ReferencesAreHolders(refs: multiset<string>, others: multiset<string>, cs: seq<Cvar>, s: string)
    requires Accounted(refs, others, cs)
    ensures refs[s] == others[s] + |SlotHolders(cs, s)| + |NameHolders(cs, s)|
    ensures forall i | 0 <= i < |cs| && InSlot(cs[i], s) :: s in refs
    ensures s in refs ==> s in others || exists i | 0 <= i < |cs| :: InSlot(cs[i], s) || OwnsName(cs[i], s)
  {
    hide InSlot, OwnsName, AllOk, HeldAll;
    HeldCountsHolders(cs, s);
    forall i: nat | i < |cs| && InSlot(cs[i], s)
      ensures s in refs
    {
      assert i in SlotHolders(cs, s);
    }
    if |SlotHolders(cs, s)| > 0 {
      var i :| i in SlotHolders(cs, s);
    } else if |NameHolders(cs, s)| > 0 {
      var i :| i in NameHolders(cs, s);
    }
  }

  lemma AccountedReplaced(before: multiset<string>, after: multiset<string>, others: multiset<string>, cs: seq<Cvar>,
                          i: nat, c: Cvar)
    requires Accounted(before, others, cs) && i < |cs| && Ok(c)
    requires after == before - Held(cs[i]) + Held(c)
    ensures Accounted(after, others, cs[i := c])
  {
    hide Ok, Held, HeldAll;
    HeldReplaced(cs, i, c);
  }

  lemma HoldsEnough(refs: multiset<string>, others: multiset<string>, cs: seq<Cvar>, i: nat)
    requires Accounted(refs, others, cs) && i < |cs|
    ensures Ok(cs[i]) && Held(cs[i]) <= refs
  {
    hide Ok, Held, HeldAll;
    HeldReplaced(cs, i, cs[i]);
  }

  lemma AccountedMore(before: multiset<string>, after: multiset<string>, others: multiset<string>, cs: seq<Cvar>,
                      c: Cvar)
    requires Accounted(before, others, cs) && Ok(c) && after == before + Held(c)
    ensures Accounted(after, others, cs + [c])
  {
    hide Ok, Held, HeldAll;
    HeldOneMore(cs, c);
  }

  class Registry {
    const storage: array<Cvar>
    var numCvars: nat
    var refs: multiset<string>
    var modifiedFlags: bv16
    var latchedSet: bool
    var cheats: bool
    ghost const others: multiset<string>

    ghost predicate Shape()
      reads this
    {
      storage.Length == MAX_CVARS && numCvars <= MAX_CVARS
    }

    ghost function Cvars(): seq<Cvar>
      requires Shape()
      reads this, storage
    {
      storage[..numCvars]
    }

    /** Every string is counted once for every variable that holds it, beside what others hold. */
    ghost predicate Valid()
      reads this, storage
    {
      Shape() && Accounted(refs, others, Cvars())
    }

    constructor (ghost elsewhere: multiset<string>, table: multiset<string>)
      requires table == elsewhere
      ensures Valid() && numCvars == 0 && others == elsewhere && fresh(storage)
    {
      storage := new Cvar[MAX_CVARS](i => UNUSED);
      numCvars, refs, modifiedFlags, latchedSet, cheats := 0, table, 0, false, false;
      others := elsewhere;
    }

    // ---------------------------------------------------------- the interning table

    method CopyString(s: string)
      modifies this`refs
      ensures refs == old(refs) + multiset{s}
    {
      refs := refs + multiset{s};
    }

    /** Gives one reference back, if the table knows the string. */
    method FreeString(s: string)
      modifies this`refs
      ensures refs == old(refs) - multiset{s}
    {
      if s in refs {
        refs := refs - multiset{s};
      }
    }

    /** The string for a slot: shared with one of the two other slots, or a new reference. */
    method AssignString(first: Value, second: Value, s: string) returns (v: Value)
      modifies this`refs
      ensures v == Text(s)
      ensures refs == Plus(old(refs), first != Text(s) && second != Text(s), s)
    {
      if first.Text? && first.s == s {
        return first;
      }
      if second.Text? && second.s == s {
        return second;
      }
      CopyString(s);
      return Text(s);
    }

    // ---------------------------------------------------------- the values of one variable

    /** Gives the reference of a replaced string back. */
    method FreeIf(shouldFree: bool, was: Value)
      requires shouldFree ==> was.Text?
      modifies this`refs
      ensures refs == Minus(old(refs), shouldFree, if was.Text? then was.s else "")
    {
      if shouldFree {
        FreeString(was.s);
      }
    }

    method UpdateString(i: nat, s: string)
      requires Shape() && i < numCvars && Ok(storage[i]) && storage[i].kind.StringKind?
      modifies this`refs, storage
      ensures storage[..] == old(storage[..])[i := old(storage[i]).(current := Text(s), latched := Text(s))]
      ensures refs
           == Updated(old(refs), old(storage[i]).current.s, old(storage[i]).latched.s, old(storage[i]).reset.s, s)
    {
      hide Plus, Minus, InDomain, LimitsFit;
      var shouldFree, oldString := ShouldFreeCurrent(storage[i]), storage[i].current;
      var current := AssignString(storage[i].latched, storage[i].reset, s);
      storage[i] := storage[i].(current := current);
      FreeIf(ShouldFreeLatched(storage[i]), storage[i].latched);
      storage[i] := storage[i].(latched := Null);
      storage[i] := storage[i].(latched := storage[i].current);
      FreeIf(shouldFree, oldString);
    }

    /** Makes `v` current and latched, and moves the references that come with it. */
    method UpdateValue(i: nat, v: Value)
      requires Shape() && i < numCvars && Ok(storage[i]) && HasKind(storage[i].kind, v) && Held(storage[i]) <= refs
      modifies this`refs, storage
      ensures storage[..] == old(storage[..])[i := old(storage[i]).(current := v, latched := v)]
      ensures refs == old(refs) - Held(old(storage[i])) + Held(storage[i])
    {
      hide Updated, Held, InDomain, LimitsFit;
      if storage[i].kind.StringKind? {
        UpdateMoves(refs, storage[i], v.s);
        UpdateString(i, v.s);
      } else {
        OthersHoldNothing(storage[i], v, v);
        storage[i] := storage[i].(current := v);
        storage[i] := storage[i].(latched := v);
      }
    }

    method LatchString(i: nat, s: string)
      requires Shape() && i < numCvars && Ok(storage[i]) && storage[i].kind.StringKind?
      modifies this`refs, storage
      ensures storage[..] == old(storage[..])[i := old(storage[i]).(latched := Text(s))]
      ensures refs
           == Latched(old(refs), old(storage[i]).current.s, old(storage[i]).latched.s, old(storage[i]).reset.s, s)
    {
      hide Plus, Minus, InDomain, LimitsFit;
      var shouldFree, oldString := ShouldFreeLatched(storage[i]), storage[i].latched;
      var latched := AssignString(storage[i].current, storage[i].reset, s);
      storage[i] := storage[i].(latched := latched);
      FreeIf(shouldFree, oldString);
    }

    /** Latches `v`; `interned` tells that its string comes out of the interning table. */
    method SetLatchedValue(i: nat, v: Value, interned: bool)
      requires Shape() && i < numCvars && Ok(storage[i]) && HasKind(storage[i].kind, v) && Held(storage[i]) <= refs
      modifies this`refs, storage
      ensures storage[..] == old(storage[..])[i := old(storage[i]).(latched := v)]
      ensures refs == old(refs) - Held(old(storage[i])) + Held(storage[i])
    {
      hide Latched, Held, InDomain, LimitsFit;
      if storage[i].kind.StringKind? {
        if !interned || storage[i].latched != v {
          LatchMoves(refs, storage[i], v.s);
          LatchString(i, v.s);
        }
      } else {
        OthersHoldNothing(storage[i], storage[i].current, v);
        storage[i] := storage[i].(latched := v);
      }
    }

    // ---------------------------------------------------------- the operations of the program

    /** Registers a variable; false when the registry is full. */
    method RegisterNew(name: string, kind: Kind, flags: bv16, value: Value, limits: Limits) returns (ok: bool)
      requires Valid() && Fresh(Cvar(name, kind, flags, value, value, value, limits, false))
      modifies this`refs, this`numCvars, storage
      ensures Valid() && ok == (old(numCvars) < MAX_CVARS)
      ensures Cvars() ==
        if ok then Step(old(Cvars()), Register(Cvar(name, kind, flags, value, value, value, limits, false)))
        else old(Cvars())
    {
      hide Fresh, Accounted, Held, Has;
      if numCvars >= MAX_CVARS {
        return false;
      }
      ghost var before, was := Cvars(), refs;
      var cvar := Cvar(name, kind, flags, value, value, value, limits, false);
      FreshIsOk(cvar);
      storage[numCvars] := cvar;
      numCvars := numCvars + 1;
      TakeReferences(name, flags, value);
      assert Cvars() == before + [cvar];
      HeldByNew(cvar);
      AccountedMore(was, refs, others, before, cvar);
      return true;
    }

    method TakeReferences(name: string, flags: bv16, value: Value)
      modifies this`refs
      ensures refs == old(refs) + ((if value.Text? then multiset{value.s} else multiset{})
                                   + (if Has(flags, USER_CREATED) then multiset{name} else multiset{}))
    {
      if Has(flags, USER_CREATED) {
        CopyString(name);
      }
      if value.Text? {
        CopyString(value.s);
      }
    }

    /** Registers a variable with a list of choices; a default that names none of them becomes the first. */
    method RegisterEnum(name: string, strings: seq<string>, integer: int, flags: bv16) returns (ok: bool)
      requires Valid()
      modifies this`refs, this`numCvars, storage
      ensures Valid() && ok == (old(numCvars) < MAX_CVARS)
      ensures ok ==>
        var value := Number(if 0 <= integer < |strings| then integer else 0);
        Cvars() == old(Cvars()) + [Cvar(name, EnumKind, flags, value, value, value, Choices(|strings|), false)]
    {
      hide Held, HeldAll;
      var enumCount := 0;
      while enumCount != |strings|
        invariant 0 <= enumCount <= |strings|
      {
        enumCount := enumCount + 1;
      }
      var value := integer;
      if value < 0 || value >= enumCount {
        value := 0;
      }
      ok := RegisterNew(name, EnumKind, flags, Number(value), Choices(enumCount));
    }

    /** A latch from outside. */
    method LatchFromOutside(i: nat, value: Value, interned: bool, source: Source)
      requires Shape() && i < numCvars && Ok(storage[i]) && HasKind(storage[i].kind, value) && Held(storage[i]) <= refs
      requires Outside(source)
      modifies this`refs, this`latchedSet, storage
      ensures storage[..] == old(storage[..])[i := old(storage[i]).(latched := value)]
      ensures refs == old(refs) - Held(old(storage[i])) + Held(storage[i])
      ensures latchedSet == (old(latchedSet) || value != old(storage[i]).current)
    {
      hide Held, HasKind, Ok;
      SetLatchedValue(i, value, interned);
      if storage[i].latched != storage[i].current {
        latchedSet := true;
      }
    }

    /** A new value at once. */
    method Install(i: nat, value: Value, source: Source)
      requires Shape() && i < numCvars && Ok(storage[i]) && HasKind(storage[i].kind, value) && Held(storage[i]) <= refs
      requires storage[i].current != value
      modifies this`refs, this`modifiedFlags, storage
      ensures storage[..]
           == old(storage[..])[i := old(storage[i]).(current := value, latched := value, modified := true)]
      ensures refs == old(refs) - Held(old(storage[i])) + Held(storage[i])
      ensures modifiedFlags == Both(old(modifiedFlags), old(storage[i]).flags)
    {
      hide Held, HasKind, Ok;
      modifiedFlags := Both(modifiedFlags, storage[i].flags);
      UpdateValue(i, value);
      ModifiedHoldsTheSame(storage[i]);
      storage[i] := storage[i].(modified := true);
    }

    /** A set of a value in the domain. */
    method SetValid(i: nat, value: Value, interned: bool, source: Source)
      requires Shape() && i < numCvars && Ok(storage[i]) && HasKind(storage[i].kind, value) && Held(storage[i]) <= refs
      requires storage[i].name != "" && InDomain(storage[i].kind, value, storage[i].limits)
      modifies this`refs, this`modifiedFlags, this`latchedSet, storage
      ensures storage[..] == old(storage[..])[i := AfterSet(old(storage[i]), value, source, cheats)]
      ensures refs == old(refs) - Held(old(storage[i])) + Held(storage[i])
      ensures Noticed(old(storage[i]), storage[i], Waits(old(storage[i]), value, source, cheats),
                      old(modifiedFlags), modifiedFlags, old(latchedSet), latchedSet)
    {
      hide Held, InDomain, HasKind, CanChange, Has, LimitsFit, Ok, AfterSet, Outside, Waits, Noticed, Both;
      ghost var c := storage[i];
      ValidOutcome(c, value, source, cheats);
      WaitsIff(c, value, source, cheats);
      ghost var waits, was := Waits(c, value, source, cheats), latchedSet;
      Unnoticed(c, c, modifiedFlags, latchedSet);
      Unnoticed(c, c.(latched := value), modifiedFlags, latchedSet);
      if Outside(source) {
        if !CanChange(storage[i], value, source, cheats) {
          Unmoved(refs, Held(storage[i]));
          return;
        }
        if Has(storage[i].flags, LATCH) {
          LatchFromOutside(i, value, interned, source);
          WaitingNoticed(c, value, modifiedFlags, was, value != c.current);
          return;
        }
      }
      if storage[i].current == value {
        SetLatchedValue(i, storage[i].current, true);
        return;
      }
      InstallNoticed(c, c.(current := value, latched := value, modified := true), modifiedFlags, latchedSet);
      Install(i, value, source);
    }

    /** Sets a variable: the effect on the list is that of one step, and every reference is accounted for. */
    method SetVariant(i: nat, value: Value, interned: bool, source: Source)
      requires Valid() && i < numCvars && HasKind(storage[i].kind, value)
      modifies this`refs, this`modifiedFlags, this`latchedSet, storage
      ensures Valid() && Cvars() == old(Cvars())[i := AfterSet(old(storage[i]), value, source, cheats)]
      ensures Noticed(old(storage[i]), storage[i], Waits(old(storage[i]), value, source, cheats),
                      old(modifiedFlags), modifiedFlags, old(latchedSet), latchedSet)
      decreases !InDomain(storage[i].kind, value, storage[i].limits)
    {
      hide Held, InDomain, CanChange, Has, LimitsFit, Accounted, Waits;
      ghost var before, was := Cvars(), refs;
      var c := storage[i];
      assert c == before[i];
      HoldsEnough(refs, others, before, i);
      NothingWaits(c, value, source, cheats);
      if c.name == "" {
        assert before[i := c] == before;
        return;
      }
      if !InDomain(c.kind, value, c.limits) {
        if c.kind.EnumKind? {
          SetVariant(i, c.reset, true, source);
        } else {
          assert before[i := c] == before;
        }
        return;
      }
      SetKeepsOk(c, value, source, cheats);
      hide AfterSet, Ok;
      SetValid(i, value, interned, source);
      assert Cvars() == before[i := storage[i]];
      AccountedReplaced(was, refs, others, before, i, storage[i]);
    }

    /** Gives a variable a new list of choices. */
    method ApplyNewEnumDomain(i: nat, count: nat, newdefault: int)
      requires Valid() && i < numCvars && storage[i].kind.EnumKind?
      modifies storage
      ensures Valid() && Cvars() == Step(old(Cvars()), SetChoices(i, count, newdefault))
    {
      hide Held, Accounted;
      ghost var before := Cvars();
      var c := storage[i];
      assert c == before[i];
      HoldsEnough(refs, others, before, i);
      var integer := c.current.n;
      if integer >= count {
        integer := newdefault;
      }
      if integer >= count {
        integer := count - 1;
      }
      if integer < 0 {
        integer := 0;
      }
      var resetInteger := newdefault;
      if resetInteger >= count {
        resetInteger := count - 1;
      }
      if resetInteger < 0 {
        resetInteger := 0;
      }
      var latchedInteger := c.latched.n;
      if latchedInteger >= count || latchedInteger < 0 {
        latchedInteger := integer;
      }
      storage[i] := c.(limits := Choices(count), current := Number(integer), reset := Number(resetInteger),
                       latched := Number(latchedInteger));
      ChoicesKeepOk(c, count, newdefault);
      ChoicesHoldTheSame(c, storage[i]);
      Unmoved(refs, Held(c));
      AccountedReplaced(refs, refs, others, before, i, storage[i]);
      assert Cvars() == before[i := storage[i]];
    }
  }

  lemma ValidOutcome(c: Cvar, v: Value, source: Source, cheats: bool)
    requires Ok(c) && HasKind(c.kind, v) && c.name != "" && InDomain(c.kind, v, c.limits)
    ensures AfterSet(c, v, source, cheats) ==
              if Outside(source) && !CanChange(c, v, source, cheats) then c
              else if (Outside(source) && Has(c.flags, LATCH)) || c.current == v then c.(latched := v)
              else c.(current := v, latched := v, modified := true)
  {
    hide InDomain, HasKind, CanChange, Has, LimitsFit, Ok;
  }

  /** A set from outside of a latched variable, which is let through and differs from the current value. */
  predicate Waits(c: Cvar, v: Value, source: Source, cheats: bool)
    requires Ok(c) && HasKind(c.kind, v)
  {
    && c.name != "" && InDomain(c.kind, Aimed(c, v), c.limits)
    && (source == External || source == Script) && c.flags & 32 != 0
    && Unprotected(c.flags, source, cheats) && Aimed(c, v) != c.current
  }

  function Both(a: bv16, b: bv16): bv16 { a | b }

  /** What is flagged by a set: the flags of a variable with a new current value, and that one waits. */
  predicate Noticed(c: Cvar, r: Cvar, waits: bool, flagsWas: bv16, flags: bv16, latchedWas: bool, latched: bool) {
    && flags == (if r.current != c.current then flagsWas | c.flags else flagsWas)
    && latched == (latchedWas || waits)
  }

  lemma Unnoticed(c: Cvar, r: Cvar, flags: bv16, latched: bool)
    requires r.current == c.current
    ensures Noticed(c, r, false, flags, flags, latched, latched)
  {}

  lemma WaitingNoticed(c: Cvar, v: Value, flags: bv16, latched: bool, waits: bool)
    ensures Noticed(c, c.(latched := v), waits, flags, flags, latched, latched || waits)
  {}

  lemma InstallNoticed(c: Cvar, r: Cvar, flags: bv16, latched: bool)
    requires r.current != c.current
    ensures Noticed(c, r, false, flags, Both(flags, c.flags), latched, latched)
  {}

  lemma WaitsIff(c: Cvar, v: Value, source: Source, cheats: bool)
    requires Ok(c) && HasKind(c.kind, v) && c.name != "" && InDomain(c.kind, v, c.limits)
    ensures Waits(c, v, source, cheats) <==>
            Outside(source) && CanChange(c, v, source, cheats) && Has(c.flags, LATCH) && v != c.current
  {
    hide InDomain, HasKind, LimitsFit, Ok;
  }

  lemma NothingWaits(c: Cvar, v: Value, source: Source, cheats: bool)
    requires Ok(c) && HasKind(c.kind, v)
    ensures c.name == "" || (!InDomain(c.kind, v, c.limits) && !c.kind.EnumKind?) ==> !Waits(c, v, source, cheats)
    ensures c.kind.EnumKind? && !InDomain(c.kind, v, c.limits) ==>
            HasKind(c.kind, c.reset) && InDomain(c.kind, c.reset, c.limits)
            && Waits(c, v, source, cheats) == Waits(c, c.reset, source, cheats)
  {}

  lemma Unmoved(refs: multiset<string>, held: multiset<string>)
    requires held <= refs
    ensures refs - held + held == refs
  {}

  lemma ModifiedHoldsTheSame(c: Cvar)
    ensures Held(c.(modified := true)) == Held(c)
  {}

  lemma HeldByNew(c: Cvar)
    requires c.latched == c.current && c.reset == c.current && Ok(c)
    ensures Held(c) == (if c.current.Text? then multiset{c.current.s} else multiset{}) + OwnName(c)
  {
    if c.current.Text? {
      assert TextOf(c.current) + TextOf(c.latched) + TextOf(c.reset) == {c.current.s};
    }
  }

  lemma ChoicesHoldTheSame(c: Cvar, d: Cvar)
    requires c.kind.EnumKind? && d.kind == c.kind && d.flags == c.flags && d.name == c.name
    ensures Held(d) == Held(c)
  {}

  lemma OthersHoldNothing(c: Cvar, current: Value, latched: Value)
    requires !c.kind.StringKind?
    ensures Held(c.(current := current, latched := latched)) == Held(c)
  {}

  // ------------------------------------------------------------ counting one string at a time

  /** Whether `x` is one of three texts. */
  function Among(x: string, a: string, b: string, r: string): nat { if x == a || x == b || x == r then 1 else 0 }

  lemma HeldCount(c: Cvar, x: string)
    requires Ok(c) && c.kind.StringKind?
    ensures Held(c)[x] == Among(x, c.current.s, c.latched.s, c.reset.s) + OwnName(c)[x]
  {
    hide Has;
    var texts := {c.current.s, c.latched.s, c.reset.s};
    assert TextOf(c.current) + TextOf(c.latched) + TextOf(c.reset) == texts;
    assert HeldTexts(c) == multiset(texts);
  }

  function OwnName(c: Cvar): multiset<string> {
    if Has(c.flags, USER_CREATED) then multiset{c.name} else multiset{}
  }

  function Plus(m: multiset<string>, condition: bool, s: string): multiset<string> {
    if condition then m + multiset{s} else m
  }

  function Minus(m: multiset<string>, condition: bool, s: string): multiset<string> {
    if condition then m - multiset{s} else m
  }

  lemma PlusCount(m: multiset<string>, condition: bool, s: string, x: string)
    ensures Plus(m, condition, s)[x] == m[x] + if condition && x == s then 1 else 0
  {}

  lemma MinusCount(m: multiset<string>, condition: bool, s: string, x: string)
    ensures Minus(m, condition, s)[x] == if condition && x == s && m[x] > 0 then m[x] - 1 else m[x]
  {}

  /** The references after an update: one taken for a new text, the latched and the current one given back. */
  function Updated(before: multiset<string>, a: string, b: string, r: string, s: string): multiset<string> {
    Minus(Minus(Plus(before, s != b && s != r, s), b != s && b != r, b), a != b && a != r, a)
  }

  function Latched(before: multiset<string>, a: string, b: string, r: string, s: string): multiset<string> {
    Minus(Plus(before, s != a && s != r, s), b != a && b != r, b)
  }

  lemma UpdatedCount(before: multiset<string>, a: string, b: string, r: string, s: string, x: string)
    requires before[x] >= Among(x, a, b, r)
    ensures Updated(before, a, b, r, s)[x] == before[x] - Among(x, a, b, r) + Among(x, s, s, r)
  {
    hide Plus, Minus;
    var taken := Plus(before, s != b && s != r, s);
    PlusCount(before, s != b && s != r, s, x);
    MinusCount(taken, b != s && b != r, b, x);
    MinusCount(Minus(taken, b != s && b != r, b), a != b && a != r, a, x);
  }

  lemma LatchedCount(before: multiset<string>, a: string, b: string, r: string, s: string, x: string)
    requires before[x] >= Among(x, a, b, r)
    ensures Latched(before, a, b, r, s)[x] == before[x] - Among(x, a, b, r) + Among(x, a, s, r)
  {
    hide Plus, Minus;
    PlusCount(before, s != a && s != r, s, x);
    MinusCount(Plus(before, s != a && s != r, s), b != a && b != r, b, x);
  }

  lemma Moved(before: multiset<string>, was: multiset<string>, now: multiset<string>, x: string)
    requires was <= before
    ensures (before - was + now)[x] == before[x] - was[x] + now[x] && was[x] <= before[x]
  {}

  lemma UpdateMovesOne(before: multiset<string>, c: Cvar, s: string, x: string)
    requires Ok(c) && c.kind.StringKind? && Held(c) <= before
    ensures Updated(before, c.current.s, c.latched.s, c.reset.s, s)[x] ==
            (before - Held(c) + Held(c.(current := Text(s), latched := Text(s))))[x]
  {
    hide Held, Updated, Among;
    var c' := c.(current := Text(s), latched := Text(s));
    HeldCount(c, x);
    HeldCount(c', x);
    Moved(before, Held(c), Held(c'), x);
    UpdatedCount(before, c.current.s, c.latched.s, c.reset.s, s, x);
  }

  lemma LatchMovesOne(before: multiset<string>, c: Cvar, s: string, x: string)
    requires Ok(c) && c.kind.StringKind? && Held(c) <= before
    ensures Latched(before, c.current.s, c.latched.s, c.reset.s, s)[x] ==
            (before - Held(c) + Held(c.(latched := Text(s))))[x]
  {
    hide Held, Latched, Among;
    var c' := c.(latched := Text(s));
    HeldCount(c, x);
    HeldCount(c', x);
    Moved(before, Held(c), Held(c'), x);
    LatchedCount(before, c.current.s, c.latched.s, c.reset.s, s, x);
  }

  lemma SameCounts(a: multiset<string>, b: multiset<string>)
    requires forall x :: a[x] == b[x]
    ensures a == b
  {}

  /** The references taken and given back by an update are the difference of what is held. */
  lemma UpdateMoves(before: multiset<string>, c: Cvar, s: string)
    requires Ok(c) && c.kind.StringKind? && Held(c) <= before
    ensures Updated(before, c.current.s, c.latched.s, c.reset.s, s) ==
            before - Held(c) + Held(c.(current := Text(s), latched := Text(s)))
  {
    hide Held, Updated, Latched;
    var after := Updated(before, c.current.s, c.latched.s, c.reset.s, s);
    var moved := before - Held(c) + Held(c.(current := Text(s), latched := Text(s)));
    forall x
      ensures after[x] == moved[x]
    {
      UpdateMovesOne(before, c, s, x);
    }
    SameCounts(after, moved);
  }

  lemma LatchMoves(before: multiset<string>, c: Cvar, s: string)
    requires Ok(c) && c.kind.StringKind? && Held(c) <= before
    ensures Latched(before, c.current.s, c.latched.s, c.reset.s, s) == before - Held(c) + Held(c.(latched := Text(s)))
  {
    hide Held, Updated, Latched;
    var after := Latched(before, c.current.s, c.latched.s, c.reset.s, s);
    var moved := before - Held(c) + Held(c.(latched := Text(s)));
    forall x
      ensures after[x] == moved[x]
    {
      LatchMovesOne(before, c, s, x);
    }
    SameCounts(after, moved);
  }
}
