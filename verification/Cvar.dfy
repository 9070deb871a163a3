/**
 Console variables as values: what they may hold, who may change them, and which interned
 strings they keep alive.  The registry that updates them in place is in module CvarRegistry.
 */
module Cvar {
  const MAX_CVARS := 4096

  const INIT: bv16 := 16
  const LATCH: bv16 := 32
  const ROM: bv16 := 64
  const CHEAT: bv16 := 128
  const USER_CREATED: bv16 := 16384

  datatype Kind = BoolKind | FloatKind | Vec2Kind | Vec3Kind | Vec4Kind | IntKind | EnumKind | StringKind | ColorKind

  /** `Null` is the pointer to no string. */
  datatype Value = Number(n: int) | Vector(v: seq<real>) | Text(s: string) | Null

  datatype Limits = Integers(min: int, max: int) | Reals(low: real, high: real) | Choices(count: nat)

  datatype Source = Internal | External | Script | DevGui

  datatype Cvar = Cvar(name: string, kind: Kind, flags: bv16, current: Value, latched: Value, reset: Value,
                       limits: Limits, modified: bool)

  predicate Has(flags: bv16, flag: bv16) { flags & flag != 0 }

  // ------------------------------------------------------------ kinds and domains

  function Components(k: Kind): nat {
    match k
    case FloatKind => 1
    case Vec2Kind => 2
    case Vec3Kind => 3
    case Vec4Kind => 4
    case _ => 0
  }

  predicate HasKind(k: Kind, v: Value) {
    if Components(k) > 0 then v.Vector? && |v.v| == Components(k)
    else if k.StringKind? then v.Text?
    else v.Number?
  }

  predicate LimitsFit(k: Kind, d: Limits) {
    if Components(k) > 0 then d.Reals? else if k.EnumKind? then d.Choices? else d.Integers?
  }

  predicate InDomain(k: Kind, v: Value, d: Limits)
    requires HasKind(k, v) && LimitsFit(k, d)
  {
    match k
    case BoolKind => v.n == 0 || v.n == 1
    case IntKind => d.min <= v.n <= d.max
    case EnumKind => 0 <= v.n < d.count || v.n == 0
    case StringKind => true
    case ColorKind => true
    case _ => forall i | 0 <= i < |v.v| :: d.low <= v.v[i] <= d.high
  }

  predicate Shaped(c: Cvar) {
    HasKind(c.kind, c.current) && HasKind(c.kind, c.latched) && HasKind(c.kind, c.reset) && LimitsFit(c.kind, c.limits)
  }

  /** All three values are in the domain. */
  predicate AllInDomain(c: Cvar)
    requires Shaped(c)
  {
    InDomain(c.kind, c.current, c.limits) && InDomain(c.kind, c.latched, c.limits)
      && InDomain(c.kind, c.reset, c.limits)
  }

  /** What holds of every registered variable. */
  predicate Ok(c: Cvar) {
    Shaped(c) && (c.kind.EnumKind? ==> AllInDomain(c))
  }

  // ------------------------------------------------------------ setting

  predicate Outside(source: Source) { source.External? || source.Script? }

  predicate CanChange(c: Cvar, v: Value, source: Source, cheats: bool) {
    v == c.current || !(Has(c.flags, ROM) || Has(c.flags, INIT) || (Has(c.flags, CHEAT) && !cheats && Outside(source)))
  }

  /** The variable after a set; an invalid enum value is replaced by the reset value. */
  function AfterSet(c: Cvar, v: Value, source: Source, cheats: bool): (r: Cvar)
    requires Ok(c) && HasKind(c.kind, v)
    decreases !InDomain(c.kind, v, c.limits)
  {
    if c.name == "" then c
    else if !InDomain(c.kind, v, c.limits) then
      if c.kind.EnumKind? then AfterSet(c, c.reset, source, cheats) else c
    else if Outside(source) && !CanChange(c, v, source, cheats) then c
    else if Outside(source) && Has(c.flags, LATCH) then c.(latched := v)
    else if v == c.current then c.(latched := v)
    else c.(current := v, latched := v, modified := true)
  }

  // ------------------------------------------------------------ a new list of choices

  function Clamp(n: int, count: nat): (r: nat)
    ensures r < count || r == 0
    ensures 0 <= n < count ==> r == n
  {
    if n >= count then (if count == 0 then 0 else count - 1) else if n < 0 then 0 else n
  }

  /** The variable when its choices become `count` many: values that still name a choice stay. */
  function WithChoices(c: Cvar, count: nat, newdefault: int): Cvar
    requires Ok(c) && c.kind.EnumKind?
  {
    var current := if c.current.n < count then c.current.n else Clamp(newdefault, count);
    c.(limits := Choices(count),
       current := Number(current),
       reset := Number(Clamp(newdefault, count)),
       latched := Number(if c.latched.n < count then c.latched.n else current))
  }

  // ------------------------------------------------------------ one step on the whole list

  datatype Action =
    | Register(cvar: Cvar)
    | Set(i: nat, v: Value, source: Source, cheats: bool)
    | SetChoices(i: nat, count: nat, newdefault: int)

  /** A variable as it is first registered: one value in all three places. */
  predicate Fresh(c: Cvar) {
    Ok(c) && c.latched == c.current && c.reset == c.current && !c.modified
  }

  predicate Enabled(cs: seq<Cvar>, a: Action) {
    match a
    case Register(c) => Fresh(c)
    case Set(i, v, _, _) => i < |cs| && HasKind(cs[i].kind, v)
    case SetChoices(i, _, _) => i < |cs| && cs[i].kind.EnumKind?
  }

  predicate AllOk(cs: seq<Cvar>) { forall i | 0 <= i < |cs| :: Ok(cs[i]) }

  function Step(cs: seq<Cvar>, a: Action): seq<Cvar>
    requires AllOk(cs) && Enabled(cs, a)
  {
    match a
    case Register(c) => cs + [c]
    case Set(i, v, source, cheats) => cs[i := AfterSet(cs[i], v, source, cheats)]
    case SetChoices(i, count, newdefault) => cs[i := WithChoices(cs[i], count, newdefault)]
  }

  // ------------------------------------------------------------ one set

  /** The value a set aims at: an invalid enum value stands for the reset value. */
  function Aimed(c: Cvar, v: Value): Value
    requires Ok(c) && HasKind(c.kind, v)
  {
    if c.kind.EnumKind? && !InDomain(c.kind, v, c.limits) then c.reset else v
  }

  /** Setting an invalid enum value is setting the reset value, and no further turn is needed. */
  lemma SetAims(c: Cvar, v: Value, source: Source, cheats: bool)
    requires Ok(c) && HasKind(c.kind, v)
    ensures HasKind(c.kind, Aimed(c, v)) && AfterSet(c, v, source, cheats) == AfterSet(c, Aimed(c, v), source, cheats)
    ensures c.kind.EnumKind? ==> InDomain(c.kind, Aimed(c, v), c.limits)
  {
    hide InDomain, CanChange, Has;
  }

  /** Everything from inside; from outside what is not read only, not write protected and no cheat without cheats. */
  predicate Unprotected(flags: bv16, source: Source, cheats: bool) {
    (source == External || source == Script) ==>
      flags & 64 == 0 && flags & 16 == 0 && (flags & 128 == 0 || cheats)
  }

  /**
   One set, completely.  The current value moves exactly when nothing protects it and no outside set is
   to wait; the latched one moves exactly when nothing protects the variable, or the value is its own.
   */
  lemma AfterSetIs(c: Cvar, v: Value, source: Source, cheats: bool)
    requires Ok(c) && HasKind(c.kind, v)
    ensures var aim := Aimed(c, v);
            var taken := c.name != "" && InDomain(c.kind, aim, c.limits);
            var waits := (source == External || source == Script) && c.flags & 32 != 0;
            var current := if taken && Unprotected(c.flags, source, cheats) && !waits then aim else c.current;
            AfterSet(c, v, source, cheats) ==
              c.(current := current,
                  latched :=
                    if taken && (aim == c.current || Unprotected(c.flags, source, cheats)) then aim else c.latched,
                 modified := c.modified || current != c.current)
  {
    SetAims(c, v, source, cheats);
    var aim := Aimed(c, v);
    hide Aimed, AfterSet, Ok, InDomain;
    if InDomain(c.kind, aim, c.limits) {
      ValidSet(c, aim, source, cheats);
    } else {
      InvalidSet(c, aim, source, cheats);
    }
  }

  lemma ValidSet(c: Cvar, v: Value, source: Source, cheats: bool)
    requires Ok(c) && HasKind(c.kind, v) && InDomain(c.kind, v, c.limits)
    ensures var waits := (source == External || source == Script) && c.flags & 32 != 0;
            var moves := c.name != "" && Unprotected(c.flags, source, cheats);
            var current := if moves && !waits then v else c.current;
            AfterSet(c, v, source, cheats) ==
              c.(current := current,
                 latched := if c.name != "" && (v == c.current || moves) then v else c.latched,
                 modified := c.modified || current != c.current)
  {
    HasIsMask(c.flags, ROM);
    HasIsMask(c.flags, INIT);
    HasIsMask(c.flags, LATCH);
    HasIsMask(c.flags, CHEAT);
    hide Ok, InDomain, HasKind, LimitsFit, Has;
  }

  lemma HasIsMask(flags: bv16, flag: bv16)
    ensures Has(flags, flag) <==> flags & flag != 0
  {}

  /** One set moves the current value exactly when nothing protects it, and then to the value aimed at. */
  lemma CurrentAfterSet(c: Cvar, v: Value, source: Source, cheats: bool)
    requires Ok(c) && HasKind(c.kind, v)
    ensures var aim := Aimed(c, v);
            AfterSet(c, v, source, cheats).current ==
              if c.name != "" && InDomain(c.kind, aim, c.limits)
                 && (Outside(source) ==>
                       !Has(c.flags, ROM) && !Has(c.flags, INIT) && !Has(c.flags, LATCH)
                         && (Has(c.flags, CHEAT) ==> cheats))
              then aim else c.current
  {
    AfterSetIs(c, v, source, cheats);
    hide Aimed, AfterSet, Ok, InDomain;
  }

  /** An integer, a switch and a choice: what is in range is installed from inside, what is not is refused or reset. */
  lemma NumberSet(c: Cvar, n: int, cheats: bool)
    requires Ok(c) && c.name != "" && HasKind(c.kind, Number(n))
    ensures c.kind.IntKind? ==>
       AfterSet(c, Number(n), Internal, cheats).current
         == if c.limits.min <= n <= c.limits.max then Number(n) else c.current
    ensures c.kind.BoolKind? ==>
      AfterSet(c, Number(n), Internal, cheats).current == if n == 0 || n == 1 then Number(n) else c.current
    ensures c.kind.EnumKind? ==>
       AfterSet(c, Number(n), Internal, cheats).current
         == if 0 <= n < c.limits.count || n == 0 then Number(n) else c.reset
    ensures c.kind.ColorKind? ==> AfterSet(c, Number(n), Internal, cheats).current == Number(n)
  {
    AfterSetIs(c, Number(n), Internal, cheats);
    hide AfterSet;
  }

  /** A string is always installed from inside. */
  lemma StringSet(c: Cvar, s: string, cheats: bool)
    requires Ok(c) && c.name != "" && c.kind.StringKind?
    ensures HasKind(c.kind, Text(s)) && AfterSet(c, Text(s), Internal, cheats).current == Text(s)
    ensures AfterSet(c, Text(s), Internal, cheats).latched == Text(s)
  {
    AfterSetIs(c, Text(s), Internal, cheats);
    hide AfterSet;
  }

  /** A vector is installed from inside exactly when each of its components is within the limits. */
  lemma VectorSet(c: Cvar, v: seq<real>, cheats: bool)
    requires Ok(c) && c.name != "" && c.kind in {FloatKind, Vec2Kind, Vec3Kind, Vec4Kind} && HasKind(c.kind, Vector(v))
    ensures |v| == if c.kind.FloatKind? then 1 else if c.kind.Vec2Kind? then 2 else if c.kind.Vec3Kind? then 3 else 4
    ensures AfterSet(c, Vector(v), Internal, cheats).current ==
            if forall i | 0 <= i < |v| :: c.limits.low <= v[i] <= c.limits.high then Vector(v) else c.current
  {
    AfterSetIs(c, Vector(v), Internal, cheats);
    hide AfterSet;
  }

  lemma InvalidSet(c: Cvar, v: Value, source: Source, cheats: bool)
    requires Ok(c) && HasKind(c.kind, v) && !InDomain(c.kind, v, c.limits) && !c.kind.EnumKind?
    ensures AfterSet(c, v, source, cheats) == c
  {
    hide Ok, InDomain, HasKind, LimitsFit, Has;
  }

  /** A set does nothing, latches what it aims at, or installs it; and only what is in the domain. */
  lemma SetOutcomes(c: Cvar, v: Value, source: Source, cheats: bool)
    requires Ok(c) && HasKind(c.kind, v)
    ensures var aim, r := Aimed(c, v), AfterSet(c, v, source, cheats);
            || r == c
            || (InDomain(c.kind, aim, c.limits)
                && (r == c.(latched := aim) || r == c.(current := aim, latched := aim, modified := true)))
  {
    SetAims(c, v, source, cheats);
    hide InDomain, CanChange, Has, HasKind, LimitsFit, Aimed;
    var aim := Aimed(c, v);
    assert InDomain(c.kind, aim, c.limits) || !c.kind.EnumKind?;
  }

  lemma OkWith(c: Cvar, current: Value, latched: Value, modified: bool)
    requires Ok(c) && HasKind(c.kind, current) && HasKind(c.kind, latched)
    requires AllInDomain(c) ==> InDomain(c.kind, current, c.limits) && InDomain(c.kind, latched, c.limits)
    ensures var r := c.(current := current, latched := latched, modified := modified);
            Ok(r) && (AllInDomain(c) ==> AllInDomain(r))
  {
    hide InDomain, HasKind, LimitsFit;
  }

  /** Setting keeps the kinds, and the domain if the variable was in it. */
  lemma SetKeepsOk(c: Cvar, v: Value, source: Source, cheats: bool)
    requires Ok(c) && HasKind(c.kind, v)
    ensures Ok(AfterSet(c, v, source, cheats))
    ensures AllInDomain(c) ==> AllInDomain(AfterSet(c, v, source, cheats))
    ensures var r := AfterSet(c, v, source, cheats);
            r.name == c.name && r.kind == c.kind && r.flags == c.flags && r.reset == c.reset && r.limits == c.limits
  {
    hide InDomain, HasKind, LimitsFit, Aimed, AfterSet;
    var aim, r := Aimed(c, v), AfterSet(c, v, source, cheats);
    SetOutcomes(c, v, source, cheats);
    SetAims(c, v, source, cheats);
    if r == c.(latched := aim) && r != c {
      assert r == c.(current := c.current, latched := aim, modified := c.modified);
      OkWith(c, c.current, aim, c.modified);
    } else if r != c {
      OkWith(c, aim, aim, true);
    }
  }

  /** A latched value waits: the set leaves the current value, and the program takes it over later. */
  lemma LatchedIsTakenOver(c: Cvar, v: Value, source: Source, cheats: bool)
    requires Ok(c) && HasKind(c.kind, v) && c.name != "" && InDomain(c.kind, v, c.limits)
    requires (source == External || source == Script) && c.flags & 32 != 0
    requires c.flags & 64 == 0 && c.flags & 16 == 0 && (c.flags & 128 == 0 || cheats)
    ensures var held := AfterSet(c, v, source, cheats);
            && held.current == c.current && held.latched == v
            && AfterSet(held, held.latched, Internal, cheats).current == v
            && AfterSet(held, held.latched, Internal, cheats).latched == v
  {
    var held := AfterSet(c, v, source, cheats);
    AfterSetIs(c, v, source, cheats);
    SetKeepsOk(c, v, source, cheats);
    AfterSetIs(held, held.latched, Internal, cheats);
    hide InDomain, CanChange, Has, HasKind, AfterSet;
  }

  /** New choices: every value names one of them, and values that named one before and still do stay. */
  lemma ChoicesKeepOk(c: Cvar, count: nat, newdefault: int)
    requires Ok(c) && c.kind.EnumKind?
    ensures var r := WithChoices(c, count, newdefault);
            && Ok(r) && r.limits == Choices(count)
            && (c.current.n < count ==> r.current == c.current)
            && (c.current.n >= count ==> r.current == r.reset)
            && r.latched == (if c.latched.n < count then c.latched else r.current)
            && (0 <= newdefault < count ==> r.reset == Number(newdefault))
            && (newdefault < 0 ==> r.reset == Number(0))
            && (newdefault >= count > 0 ==> r.reset == Number(count - 1))
  {}

  // ------------------------------------------------------------ whole runs

  ghost predicate CanRun(cs: seq<Cvar>, actions: seq<Action>)
    requires AllOk(cs)
    decreases |actions|
  {
    actions == [] ||
    (Enabled(cs, actions[0]) && (StepKeepsOk(cs, actions[0]); CanRun(Step(cs, actions[0]), actions[1..])))
  }

  ghost function Run(cs: seq<Cvar>, actions: seq<Action>): seq<Cvar>
    requires AllOk(cs) && CanRun(cs, actions)
    decreases |actions|
  {
    if actions == [] then cs
    else StepKeepsOk(cs, actions[0]); Run(Step(cs, actions[0]), actions[1..])
  }

  lemma StepKeepsOk(cs: seq<Cvar>, a: Action)
    requires AllOk(cs) && Enabled(cs, a)
    ensures AllOk(Step(cs, a)) && |cs| <= |Step(cs, a)|
  {
    hide Ok, AfterSet, WithChoices;
    match a
    case Register(c) =>
      FreshIsOk(c);
    case Set(i, v, source, cheats) =>
      assert Ok(cs[i]);
      SetKeepsOk(cs[i], v, source, cheats);
    case SetChoices(i, count, newdefault) =>
      assert Ok(cs[i]);
      ChoicesKeepOk(cs[i], count, newdefault);
  }

  lemma FreshIsOk(c: Cvar)
    requires Fresh(c)
    ensures Ok(c)
  {}

  /** Nothing but registration and outside sets happens to variable `i`. */
  predicate OnlyOutside(i: nat, actions: seq<Action>) {
    forall k | 0 <= k < |actions| ::
      match actions[k]
      case Register(_) => true
      case Set(j, _, source, _) => j == i ==> Outside(source)
      case SetChoices(j, _, _) => j != i
  }

  /** Whatever is set from outside, over any run, a read-only, write-protected or latched variable keeps its value. */
  lemma {:induction false} ProtectedKeepsCurrent(cs: seq<Cvar>, actions: seq<Action>, i: nat)
    requires AllOk(cs) && CanRun(cs, actions) && i < |cs| && OnlyOutside(i, actions)
    requires Has(cs[i].flags, ROM) || Has(cs[i].flags, INIT) || Has(cs[i].flags, LATCH)
    ensures i < |Run(cs, actions)| && Run(cs, actions)[i].current == cs[i].current
    decreases |actions|
  {
    if actions != [] {
      var a := actions[0];
      StepKeepsOk(cs, a);
      ProtectedStep(cs, a, i);
      hide AllOk, Step, Has, Enabled;
      ProtectedKeepsCurrent(Step(cs, a), actions[1..], i);
    }
  }

  lemma ProtectedStep(cs: seq<Cvar>, a: Action, i: nat)
    requires AllOk(cs) && Enabled(cs, a) && i < |cs| && OnlyOutside(i, [a])
    requires Has(cs[i].flags, ROM) || Has(cs[i].flags, INIT) || Has(cs[i].flags, LATCH)
    ensures i < |Step(cs, a)| && Step(cs, a)[i].current == cs[i].current && Step(cs, a)[i].flags == cs[i].flags
  {
    assert [a][0] == a;
    hide AfterSet, Has, WithChoices;
    if a.Set? && a.i == i {
      assert Ok(cs[i]);
      SetKeepsOk(cs[i], a.v, a.source, a.cheats);
      CurrentAfterSet(cs[i], a.v, a.source, a.cheats);
    }
  }

  /** Over any run, a variable registered in its domain stays in it. */
  lemma {:induction false} DomainIsKept(cs: seq<Cvar>, actions: seq<Action>, i: nat)
    requires AllOk(cs) && CanRun(cs, actions) && i < |cs| && Ok(cs[i]) && AllInDomain(cs[i])
    ensures AllOk(Run(cs, actions)) && i < |Run(cs, actions)|
    ensures Ok(Run(cs, actions)[i]) && AllInDomain(Run(cs, actions)[i])
    decreases |actions|
  {
    if actions != [] {
      var a := actions[0];
      StepKeepsOk(cs, a);
      DomainStep(cs, a, i);
      hide AllOk, Ok, AllInDomain, Step, Enabled;
      DomainIsKept(Step(cs, a), actions[1..], i);
    }
  }

  lemma DomainStep(cs: seq<Cvar>, a: Action, i: nat)
    requires AllOk(cs) && Enabled(cs, a) && i < |cs| && Ok(cs[i]) && AllInDomain(cs[i])
    ensures i < |Step(cs, a)| && Ok(Step(cs, a)[i]) && AllInDomain(Step(cs, a)[i])
  {
    hide AfterSet, WithChoices, InDomain;
    if a.Set? && a.i == i {
      SetKeepsOk(cs[i], a.v, a.source, a.cheats);
    } else if a.SetChoices? && a.i == i {
      ChoicesKeepOk(cs[i], a.count, a.newdefault);
    }
  }

  // ------------------------------------------------------------ interned strings

  /** The interned strings a variable holds: each different one of its three texts once, and its name if it owns it. */
  function Held(c: Cvar): multiset<string> {
    HeldTexts(c) + if Has(c.flags, USER_CREATED) then multiset{c.name} else multiset{}
  }

  function HeldTexts(c: Cvar): multiset<string> {
    if c.kind.StringKind? then multiset(TextOf(c.current) + TextOf(c.latched) + TextOf(c.reset)) else multiset{}
  }

  function TextOf(v: Value): set<string> { if v.Text? then {v.s} else {} }

  function HeldAll(cs: seq<Cvar>): multiset<string> {
    if cs == [] then multiset{} else HeldAll(cs[..|cs| - 1]) + Held(cs[|cs| - 1])
  }

  lemma HeldOneMore(cs: seq<Cvar>, c: Cvar)
    ensures HeldAll(cs + [c]) == HeldAll(cs) + Held(c)
  {
    assert (cs + [c])[..|cs|] == cs;
  }

  lemma {:induction false} HeldReplaced(cs: seq<Cvar>, i: nat, c: Cvar)
    requires i < |cs|
    ensures Held(cs[i]) <= HeldAll(cs)
    ensures HeldAll(cs[i := c]) == HeldAll(cs) - Held(cs[i]) + Held(c)
    decreases |cs|
  {
    hide Held;
    var n := |cs| - 1;
    if i == n {
      assert cs[i := c][..n] == cs[..n];
      Swapped(HeldAll(cs[..n]), multiset{}, Held(cs[i]), Held(c));
    } else {
      HeldReplaced(cs[..n], i, c);
      assert cs[i := c][..n] == cs[..n][i := c];
      Swapped(HeldAll(cs[..n]) - Held(cs[i]), Held(cs[n]), Held(cs[i]), Held(c));
    }
  }

  lemma Swapped(rest: multiset<string>, more: multiset<string>, was: multiset<string>, now: multiset<string>)
    ensures rest + was + more - was + now == rest + now + more
  {}

  /** `s` stands in at least one of the three slots. */
  predicate InSlot(c: Cvar, s: string) {
    c.kind.StringKind? && (c.current == Text(s) || c.latched == Text(s) || c.reset == Text(s))
  }

  predicate OwnsName(c: Cvar, s: string) {
    Has(c.flags, USER_CREATED) && c.name == s
  }

  function SlotHolders(cs: seq<Cvar>, s: string): set<nat> {
    set i | 0 <= i < |cs| && InSlot(cs[i], s)
  }

  function NameHolders(cs: seq<Cvar>, s: string): set<nat> {
    set i | 0 <= i < |cs| && OwnsName(cs[i], s)
  }

  /** A string is held as often as there are variables that show it in a slot or own it as their name. */
  lemma {:induction false} HeldCountsHolders(cs: seq<Cvar>, s: string)
    ensures HeldAll(cs)[s] == |SlotHolders(cs, s)| + |NameHolders(cs, s)|
  {
    hide InSlot, OwnsName, Held;
    if cs == [] {
      assert SlotHolders(cs, s) == {} && NameHolders(cs, s) == {};
    } else {
      var n := |cs| - 1;
      HeldCountsHolders(cs[..n], s);
      HeldOne(cs[n], s);
      HoldersGrow(cs, s);
    }
  }

  lemma HoldersGrow(cs: seq<Cvar>, s: string)
    requires cs != []
    ensures var n := |cs| - 1;
            && |SlotHolders(cs, s)| == |SlotHolders(cs[..n], s)| + (if InSlot(cs[n], s) then 1 else 0)
            && |NameHolders(cs, s)| == |NameHolders(cs[..n], s)| + (if OwnsName(cs[n], s) then 1 else 0)
  {
    SlotHoldersGrow(cs, s);
    NameHoldersGrow(cs, s);
    hide *;
    OneMore(SlotHolders(cs[..|cs| - 1], s), SlotHolders(cs, s), |cs| - 1, InSlot(cs[|cs| - 1], s));
    OneMore(NameHolders(cs[..|cs| - 1], s), NameHolders(cs, s), |cs| - 1, OwnsName(cs[|cs| - 1], s));
  }

  lemma OneMore(few: set<nat>, many: set<nat>, n: nat, more: bool)
    requires n !in few && many == few + if more then {n} else {}
    ensures |many| == |few| + if more then 1 else 0
  {}

  lemma SlotHoldersGrow(cs: seq<Cvar>, s: string)
    requires cs != []
    ensures |cs| - 1 !in SlotHolders(cs[..|cs| - 1], s)
    ensures SlotHolders(cs, s) == SlotHolders(cs[..|cs| - 1], s) + if InSlot(cs[|cs| - 1], s) then {|cs| - 1} else {}
  {
    hide InSlot;
  }

  lemma NameHoldersGrow(cs: seq<Cvar>, s: string)
    requires cs != []
    ensures |cs| - 1 !in NameHolders(cs[..|cs| - 1], s)
    ensures NameHolders(cs, s) == NameHolders(cs[..|cs| - 1], s) + if OwnsName(cs[|cs| - 1], s) then {|cs| - 1} else {}
  {
    hide OwnsName;
  }

  lemma HeldOne(c: Cvar, s: string)
    ensures Held(c)[s] == (if InSlot(c, s) then 1 else 0) + (if OwnsName(c, s) then 1 else 0)
  {
    hide Has;
    var texts := TextOf(c.current) + TextOf(c.latched) + TextOf(c.reset);
    assert s in texts <==> c.current == Text(s) || c.latched == Text(s) || c.reset == Text(s);
    assert multiset(texts)[s] == if s in texts then 1 else 0;
  }
}
