/** The life of the program objects that a Callable creates through shared libraries, and the cache of
    library handles that every environment keeps.
*/
module Callable {
  import opened Common

  type EnvId = nat

  type Handle = nat

  type ProgramId = nat

  /** The create/delete function that a symbol of a library names. */
  datatype Maker = Maker(library: Handle, symbol: string)

  /** What a maker does when it is called without a program. */
  datatype Creation = Created | CreatedWithoutMain | NothingCreated | ConstructorThrew

  /** What the operating system and the library answer to one operation, should it ask. */
  datatype Answers = Answers(dlopen: Option<Handle>, dlsym: bool, creation: Creation)

  datatype Deed = Made(program: ProgramId, maker: Maker) | Unmade(program: ProgramId, maker: Maker)

  /** What callables share: the handle cache of every environment, all creations and deletions so far in
      order, and how many programs were ever created. */
  datatype World = World(caches: map<EnvId, map<string, Handle>>, log: seq<Deed>, programs: nat)

  datatype Fields = Fields(
    env: Option<EnvId>, libName: string, funcName: string,
    library: Option<Handle>, maker: Option<Maker>, program: Option<ProgramId>, hasMain: bool)

  datatype Verdict = Returned(ok: bool) | Threw

  /** Whoever has a program has the function that made it. */
  predicate Good(c: Fields) {
    && (c.program.Some? ==> c.env.Some? && c.library.Some? && c.maker == Some(Maker(c.library.value, c.funcName)))
    && (c.program.None? ==> !c.hasMain)
  }

  function Cache(w: World, env: EnvId): map<string, Handle> {
    if env in w.caches then w.caches[env] else map[]
  }

  // ----- the operations on values -----

  function DeleteObject(c: Fields, w: World): (Fields, World)
    requires Good(c)
  {
    if c.program.None? then (c, w)
    else (c.(program := None, hasMain := false), w.(log := w.log + [Unmade(c.program.value, c.maker.value)]))
  }

  function Close(c: Fields, w: World): (Fields, World)
    requires Good(c)
  {
    var (c1, w1) := DeleteObject(c, w);
    (c1.(library := None, libName := ""), w1)
  }

  function Open(c: Fields, w: World, lib: string, os: Answers): (Fields, World, Verdict)
    requires Good(c) && c.env.Some?
  {
    var (c1, w1) := Close(c, w);
    var cache := Cache(w1, c1.env.value);
    if lib in cache then (c1.(library := Some(cache[lib]), libName := lib), w1, Returned(true))
    else if os.dlopen.None? then (c1, w1, Threw)
    else (c1.(library := os.dlopen, libName := lib),
          w1.(caches := w1.caches[c1.env.value := cache[lib := os.dlopen.value]]), Returned(true))
  }

  function OpenMaker(c: Fields, w: World, func: string, os: Answers): (Fields, World, Verdict)
    requires Good(c) && c.library.Some?
  {
    var (c1, w1) := DeleteObject(c, w);
    if os.dlsym then (c1.(maker := Some(Maker(c1.library.value, func)), funcName := func), w1, Returned(true))
    else (c1.(maker := None), w1, Threw)
  }

  /** Calls the maker without a program. */
  function Make(c: Fields, w: World, os: Answers): (Fields, World, Verdict)
    requires c.program.None? && c.maker.Some?
  {
    if os.creation.Created? || os.creation.CreatedWithoutMain? then
      (c.(program := Some(w.programs), hasMain := os.creation.Created?),
       w.(log := w.log + [Made(w.programs, c.maker.value)], programs := w.programs + 1), Returned(os.creation.Created?))
    else
      (c, w, if os.creation.ConstructorThrew? then Threw else Returned(false))
  }

  function OpenMakerAndMake(c: Fields, w: World, func: string, os: Answers): (Fields, World, Verdict)
    requires Good(c) && c.library.Some?
  {
    var (c1, w1, v1) := OpenMaker(c, w, func, os);
    if v1.Threw? then (c1, w1, v1) else Make(c1, w1, os)
  }

  const MAKER_SYMBOL := "exoprogram_createdelete_"

  function Attach(c: Fields, w: World, lib: string, os: Answers): (Fields, World, Verdict)
    requires Good(c) && c.env.Some?
  {
    var (c1, w1, v1) := Open(c, w, lib, os);
    if v1.Threw? then (c1, w1, v1) else OpenMakerAndMake(c1, w1, MAKER_SYMBOL, os)
  }

  function InitSmf(c: Fields, w: World, env: EnvId, lib: string, func: string, forceNew: bool, os: Answers)
    : (Fields, World, Verdict)
    requires Good(c)
  {
    var c0 := c.(env := Some(env));
    var (c1, w1, v1) :=
      if lib != c0.libName || c0.program.None? then Open(c0, w, lib, os) else (c0, w, Returned(true));
    if v1.Threw? then (c1, w1, v1)
    else if forceNew || func != c1.funcName then OpenMakerAndMake(c1, w1, func, os)
    else (c1, w1, Returned(true))
  }

  function Assign(c: Fields, w: World, lib: string, os: Answers): (Fields, World, Verdict)
    requires Good(c) && c.env.Some?
  {
    if lib == c.libName then (c, w, Returned(true))
    else
      var (c1, w1) := Close(c, w);
      if lib == "" then (c1, w1, Returned(true)) else Attach(c1, w1, lib, os)
  }

  // ----- the class -----

  class Runtime {
    var caches: map<EnvId, map<string, Handle>>
    var log: seq<Deed>
    var programs: nat

    constructor ()
      ensures Contents() == World(map[], [], 0)
    {
      caches, log, programs := map[], [], 0;
    }

    function Contents(): World
      reads this
    {
      World(caches, log, programs)
    }
  }

  class Callable {
    var env: Option<EnvId>
    var libName: string
    var funcName: string
    var library: Option<Handle>
    var maker: Option<Maker>
    var program: Option<ProgramId>
    var hasMain: bool

    constructor (e: Option<EnvId>, lib: string, func: string)
      ensures Contents() == Fields(e, lib, func, None, None, None, false)
    {
      env, libName, funcName := e, lib, func;
      library, maker, program, hasMain := None, None, None, false;
    }

    function Contents(): Fields
      reads this
    {
      Fields(env, libName, funcName, library, maker, program, hasMain)
    }

    method DeleteSharedObject(world: Runtime)
      requires Good(Contents())
      modifies this, world
      ensures (Contents(), world.Contents()) == DeleteObject(old(Contents()), old(world.Contents()))
    {
      if program.None? {
        return;
      }
      world.log := world.log + [Unmade(program.value, maker.value)];
      program, hasMain := None, false;
    }

    /** Also what the destructor does. */
    method CloseLib(world: Runtime)
      requires Good(Contents())
      modifies this, world
      ensures (Contents(), world.Contents()) == Close(old(Contents()), old(world.Contents()))
    {
      DeleteSharedObject(world);
      if library.Some? {
        library := None;
      }
      libName := "";
    }

    method OpenLib(world: Runtime, newLibName: string, os: Answers) returns (verdict: Verdict)
      requires Good(Contents()) && env.Some?
      modifies this, world
      ensures (Contents(), world.Contents(), verdict) == Open(old(Contents()), old(world.Contents()), newLibName, os)
    {
      CloseLib(world);
      var cache: map<string, Handle> := Cache(world.Contents(), env.value);
      if newLibName in cache {
        library := Some(cache[newLibName]);
        libName := newLibName;
        return Returned(true);
      }
      library := os.dlopen;
      if library.None? {
        return Threw;
      }
      world.caches := world.caches[env.value := cache[newLibName := library.value]];
      libName := newLibName;
      verdict := Returned(true);
    }

    method OpenFunc(world: Runtime, newFuncName: string, os: Answers) returns (verdict: Verdict)
      requires Good(Contents()) && library.Some?
      modifies this, world
      ensures (Contents(), world.Contents(), verdict) ==
              OpenMaker(old(Contents()), old(world.Contents()), newFuncName, os)
    {
      DeleteSharedObject(world);
      maker := if os.dlsym then Some(Maker(library.value, newFuncName)) else None;
      if maker.None? {
        return Threw;
      }
      funcName := newFuncName;
      verdict := Returned(true);
    }

    /** The call of the maker when there is no program. */
    method CallMaker(world: Runtime, os: Answers) returns (verdict: Verdict)
      requires program.None? && maker.Some? && !hasMain
      modifies this, world
      ensures (Contents(), world.Contents(), verdict) == Make(old(Contents()), old(world.Contents()), os)
    {
      if os.creation.ConstructorThrew? {
        return Threw;
      }
      if os.creation.Created? || os.creation.CreatedWithoutMain? {
        program, hasMain := Some(world.programs), os.creation.Created?;
        world.log := world.log + [Made(world.programs, maker.value)];
        world.programs := world.programs + 1;
      }
      verdict := Returned(program.Some? && hasMain);
    }

    method Ready(world: Runtime, newFuncName: string, os: Answers) returns (verdict: Verdict)
      requires Good(Contents()) && library.Some?
      modifies this, world
      ensures (Contents(), world.Contents(), verdict) ==
              OpenMakerAndMake(old(Contents()), old(world.Contents()), newFuncName, os)
    {
      verdict := OpenFunc(world, newFuncName, os);
      if verdict.Returned? {
        verdict := CallMaker(world, os);
      }
    }

    method AttachLib(world: Runtime, newLibName: string, os: Answers) returns (verdict: Verdict)
      requires Good(Contents()) && env.Some?
      modifies this, world
      ensures (Contents(), world.Contents(), verdict) == Attach(old(Contents()), old(world.Contents()), newLibName, os)
    {
      verdict := OpenLib(world, newLibName, os);
      if verdict.Returned? {
        verdict := Ready(world, MAKER_SYMBOL, os);
      }
    }

    method Init(world: Runtime, ev: EnvId, newLibName: string, newFuncName: string, forceNew: bool, os: Answers)
      returns (verdict: Verdict)
      requires Good(Contents())
      modifies this, world
      ensures (Contents(), world.Contents(), verdict) ==
              InitSmf(old(Contents()), old(world.Contents()), ev, newLibName, newFuncName, forceNew, os)
    {
      env := Some(ev);
      if newLibName != libName || program.None? {
        verdict := OpenLib(world, newLibName, os);
        if verdict.Threw? {
          return;
        }
      }
      if forceNew || newFuncName != funcName {
        verdict := Ready(world, newFuncName, os);
        return;
      }
      verdict := Returned(true);
    }

    method AssignName(world: Runtime, newLibName: string, os: Answers) returns (verdict: Verdict)
      requires Good(Contents()) && env.Some?
      modifies this, world
      ensures (Contents(), world.Contents(), verdict) == Assign(old(Contents()), old(world.Contents()), newLibName, os)
    {
      verdict := Returned(true);
      if newLibName != libName {
        CloseLib(world);
        if newLibName == "" {
          libName := newLibName;
        } else {
          verdict := AttachLib(world, newLibName, os);
        }
      }
    }
  }

  // ----- what one operation keeps -----

  datatype Operation =
    | DoInit(env: EnvId, lib: string, func: string, forceNew: bool, os: Answers)
    | DoAttach(lib: string, os: Answers)
    | DoAssign(lib: string, os: Answers)
    | DoClose

  /** Attaching needs an environment. */
  predicate Possible(c: Fields, op: Operation) {
    (op.DoAttach? || op.DoAssign?) ==> c.env.Some?
  }

  function Apply(c: Fields, w: World, op: Operation): (Fields, World)
    requires Good(c) && Possible(c, op)
  {
    match op
    case DoInit(env, lib, func, forceNew, os) =>
      var (c', w', _) := InitSmf(c, w, env, lib, func, forceNew, os); (c', w')
    case DoAttach(lib, os) => var (c', w', _) := Attach(c, w, lib, os); (c', w')
    case DoAssign(lib, os) => var (c', w', _) := Assign(c, w, lib, os); (c', w')
    case DoClose => Close(c, w)
  }

  function MadeCount(log: seq<Deed>, id: ProgramId): nat {
    if log == [] then 0
    else MadeCount(log[..|log| - 1], id) + if log[|log| - 1].Made? && log[|log| - 1].program == id then 1 else 0
  }

  function UnmadeCount(log: seq<Deed>, id: ProgramId): nat {
    if log == [] then 0
    else UnmadeCount(log[..|log| - 1], id) + if log[|log| - 1].Unmade? && log[|log| - 1].program == id then 1 else 0
  }

  /** What an operation may do to programs: keep the one that the callable has; or delete it, if any, by
      the function that made it; or delete it and then make the next one. */
  ghost predicate Turn(c: Fields, w: World, c': Fields, w': World)
    requires Good(c)
  {
    && Good(c')
    && (|| (c'.program == c.program && (c.program.Some? ==> c'.maker == c.maker)
            && w'.log == w.log && w'.programs == w.programs)
        || (c'.program.None? && w'.log == w.log + Gone(c) && w'.programs == w.programs)
        || (c'.program == Some(w.programs) && w'.log == w.log + Gone(c) + [Made(w.programs, c'.maker.value)]
            && w'.programs == w.programs + 1))
  }

  function Gone(c: Fields): seq<Deed>
    requires Good(c)
  {
    if c.program.None? then [] else [Unmade(c.program.value, c.maker.value)]
  }

  lemma OpenTurns(c: Fields, w: World, lib: string, os: Answers)
    requires Good(c) && c.env.Some?
    ensures var (c', w', v) := Open(c, w, lib, os);
            && Good(c') && c'.program.None? && w'.log == w.log + Gone(c) && w'.programs == w.programs
            && c'.env == c.env && c'.funcName == c.funcName
            && (if v == Returned(true) then c'.libName == lib && c'.library.Some? else v == Threw && c'.library.None?)
  {
  }

  lemma MakeTurns(c: Fields, w: World, func: string, os: Answers)
    requires Good(c) && c.library.Some? && c.env.Some?
    ensures Turn(c, w, OpenMakerAndMake(c, w, func, os).0, OpenMakerAndMake(c, w, func, os).1)
  {
  }

  lemma AttachTurns(c: Fields, w: World, lib: string, os: Answers)
    requires Good(c) && c.env.Some?
    ensures Turn(c, w, Attach(c, w, lib, os).0, Attach(c, w, lib, os).1)
  {
    hide Open, OpenMakerAndMake;
    OpenTurns(c, w, lib, os);
    var (c1, w1, v1) := Open(c, w, lib, os);
    assert w1.log + [] == w1.log;
    if v1.Returned? {
      MakeTurns(c1, w1, MAKER_SYMBOL, os);
    }
  }

  lemma InitTurns(c: Fields, w: World, env: EnvId, lib: string, func: string, forceNew: bool, os: Answers)
    requires Good(c)
    ensures Turn(c, w, InitSmf(c, w, env, lib, func, forceNew, os).0, InitSmf(c, w, env, lib, func, forceNew, os).1)
  {
    hide Open, OpenMakerAndMake;
    var c0 := c.(env := Some(env));
    OpenTurns(c0, w, lib, os);
    var (c1, w1, v1) :=
      if lib != c0.libName || c0.program.None? then Open(c0, w, lib, os) else (c0, w, Returned(true));
    assert w1.log + [] == w1.log;
    if v1.Returned? {
      MakeTurns(c1, w1, func, os);
    }
  }

  /** No operation does anything else, whatever fails in it. */
  lemma ApplyTurns(c: Fields, w: World, op: Operation)
    requires Good(c) && Possible(c, op)
    ensures Turn(c, w, Apply(c, w, op).0, Apply(c, w, op).1)
  {
    hide Attach, InitSmf;
    match op
    case DoInit(env, lib, func, forceNew, os) => InitTurns(c, w, env, lib, func, forceNew, os);
    case DoAttach(lib, os) => AttachTurns(c, w, lib, os);
    case DoAssign(lib, os) =>
      var (c1, w1) := Close(c, w);
      assert w1.log == w.log + Gone(c) && w1.log + [] == w1.log;
      AttachTurns(c1, w1, lib, os);
    case DoClose =>
  }

  // ----- runs of many callables -----

  /** The callables by number, those destroyed being None. */
  datatype System = System(world: World, callables: seq<Option<Fields>>)

  const START := System(World(map[], [], 0), [])

  datatype Event = New(env: Option<EnvId>, lib: string, func: string) | Do(k: nat, op: Operation) | Destroy(k: nat)

  predicate Alive(s: System, k: nat) {
    k < |s.callables| && s.callables[k].Some?
  }

  ghost predicate CanHappen(s: System, ev: Event) {
    match ev
    case New(_, _, _) => true
    case Do(k, op) => Alive(s, k) && Good(s.callables[k].value) && Possible(s.callables[k].value, op)
    case Destroy(k) => Alive(s, k) && Good(s.callables[k].value)
  }

  ghost function Next(s: System, ev: Event): System
    requires CanHappen(s, ev)
  {
    match ev
    case New(env, lib, func) => s.(callables := s.callables + [Some(Fields(env, lib, func, None, None, None, false))])
    case Do(k, op) =>
      var (c, w) := Apply(s.callables[k].value, s.world, op);
      System(w, s.callables[k := Some(c)])
    case Destroy(k) =>
      var (c, w) := Close(s.callables[k].value, s.world);
      System(w, s.callables[k := None])
  }

  ghost function After(evs: seq<Event>): Option<System> {
    if evs == [] then Some(START)
    else
      var before := After(evs[..|evs| - 1]);
      if before.Some? && CanHappen(before.value, evs[|evs| - 1]) then Some(Next(before.value, evs[|evs| - 1])) else None
  }

  function Has(c: Option<Fields>, id: ProgramId): nat {
    if c.Some? && c.value.program == Some(id) then 1 else 0
  }

  function Holders(cs: seq<Option<Fields>>, id: ProgramId): nat {
    if cs == [] then 0 else Holders(cs[..|cs| - 1], id) + Has(cs[|cs| - 1], id)
  }

  lemma {:induction false} HoldersUpdate(cs: seq<Option<Fields>>, k: nat, c: Option<Fields>, id: ProgramId)
    requires k < |cs|
    ensures Holders(cs[k := c], id) - Has(c, id) == Holders(cs, id) - Has(cs[k], id)
  {
    var n := |cs| - 1;
    if k == n {
      assert cs[k := c][..n] == cs[..n];
    } else {
      HoldersUpdate(cs[..n], k, c, id);
      assert cs[k := c][..n] == cs[..n][k := c];
    }
  }

  lemma LogGrows(log: seq<Deed>, d: Deed, id: ProgramId)
    ensures MadeCount(log + [d], id) == MadeCount(log, id) + if d.Made? && d.program == id then 1 else 0
    ensures UnmadeCount(log + [d], id) == UnmadeCount(log, id) + if d.Unmade? && d.program == id then 1 else 0
  {
    assert (log + [d])[..|log|] == log;
  }

  /** Programs held or deleted are the programs made, each numbered once. */
  ghost predicate Accounted(s: System, id: ProgramId) {
    && MadeCount(s.world.log, id) == (if id < s.world.programs then 1 else 0)
    && Holders(s.callables, id) + UnmadeCount(s.world.log, id) == MadeCount(s.world.log, id)
  }

  lemma TurnAccounted(s: System, k: nat, c: Option<Fields>, c': Fields, w: World, id: ProgramId)
    requires Alive(s, k) && Good(s.callables[k].value) && Accounted(s, id)
    requires Turn(s.callables[k].value, s.world, c', w)
    requires c == Some(c') || (c == None && c'.program == None)
    ensures Accounted(System(w, s.callables[k := c]), id)
  {
    HoldersUpdate(s.callables, k, c, id);
    var log, was := s.world.log, s.callables[k].value;
    assert log + [] == log;
    if was.program.Some? {
      LogGrows(log, Gone(was)[0], id);
    }
    if c'.program.Some? {
      LogGrows(log + Gone(was), Made(s.world.programs, c'.maker.value), id);
    }
  }

  ghost predicate AllGood(s: System) {
    forall k :: 0 <= k < |s.callables| ==> s.callables[k].Some? ==> Good(s.callables[k].value)
  }

  /** In every run whoever has a program has its maker, so that what can happen depends on nothing else
      than that the callable exists and, to attach, has an environment. */
  lemma {:induction false} GoodAlways(evs: seq<Event>)
    requires After(evs).Some?
    ensures AllGood(After(evs).value)
  {
    if evs != [] {
      hide Apply, Close, Good;
      var s, ev := After(evs[..|evs| - 1]).value, evs[|evs| - 1];
      GoodAlways(evs[..|evs| - 1]);
      match ev
      case New(env, lib, func) => NewGood(env, lib, func);
      case Do(k, op) => ApplyTurns(s.callables[k].value, s.world, op);
      case Destroy(k) =>
    }
  }

  lemma NewGood(env: Option<EnvId>, lib: string, func: string)
    ensures Good(Fields(env, lib, func, None, None, None, false))
  {
  }

  lemma NextAccounted(s: System, ev: Event, id: ProgramId)
    requires CanHappen(s, ev) && Accounted(s, id)
    ensures Accounted(Next(s, ev), id)
  {
    hide Apply, Accounted, Turn, Good;
    match ev
    case New(env, lib, func) => NewAccounted(s, env, lib, func, id);
    case Do(k, op) =>
      var c := s.callables[k].value;
      ApplyTurns(c, s.world, op);
      var (c', w) := Apply(c, s.world, op);
      TurnAccounted(s, k, Some(c'), c', w, id);
    case Destroy(k) =>
      var c := s.callables[k].value;
      ApplyTurns(c, s.world, DoClose);
      var (c', w) := Close(c, s.world);
      CloseApplies(c, s.world);
      TurnAccounted(s, k, None, c', w, id);
  }

  lemma CloseApplies(c: Fields, w: World)
    requires Good(c)
    ensures Apply(c, w, DoClose) == Close(c, w) && Close(c, w).0.program.None?
  {
  }

  lemma NewAccounted(s: System, env: Option<EnvId>, lib: string, func: string, id: ProgramId)
    requires Accounted(s, id)
    ensures Accounted(Next(s, New(env, lib, func)), id)
  {
    var c := Some(Fields(env, lib, func, None, None, None, false));
    assert (s.callables + [c])[..|s.callables|] == s.callables;
  }

  /** In every run, failed opens included, each program made has one maker's call behind it and is either
      held by exactly one callable or was deleted exactly once. */
  lemma {:induction false} ProgramsOnce(evs: seq<Event>, id: ProgramId)
    requires After(evs).Some?
    ensures Accounted(After(evs).value, id)
  {
    if evs != [] {
      ProgramsOnce(evs[..|evs| - 1], id);
      NextAccounted(After(evs[..|evs| - 1]).value, evs[|evs| - 1], id);
    }
  }

  /** Every deletion is by the function that made the program, and after that. */
  ghost predicate MakersUnmake(log: seq<Deed>) {
    forall j :: 0 <= j < |log| && log[j].Unmade? ==> Made(log[j].program, log[j].maker) in log[..j]
  }

  ghost predicate Recorded(c: Option<Fields>, log: seq<Deed>) {
    c.Some? && c.value.program.Some? ==> c.value.maker.Some? && Made(c.value.program.value, c.value.maker.value) in log
  }

  ghost predicate AllRecorded(s: System) {
    forall k :: 0 <= k < |s.callables| ==> Recorded(s.callables[k], s.world.log)
  }

  lemma TurnRecorded(c: Fields, w: World, c': Fields, w': World)
    requires Good(c) && Turn(c, w, c', w') && Recorded(Some(c), w.log) && MakersUnmake(w.log)
    ensures Recorded(Some(c'), w'.log) && MakersUnmake(w'.log) && w.log <= w'.log
  {
    forall j | 0 <= j < |w'.log| && w'.log[j].Unmade?
      ensures Made(w'.log[j].program, w'.log[j].maker) in w'.log[..j]
    {
      if j < |w.log| {
        assert w'.log[..j] == w.log[..j];
      } else {
        assert w'.log[j] == Unmade(c.program.value, c.maker.value);
        assert w'.log[..j] == w.log;
      }
    }
  }

  lemma {:induction false} RecordedAlways(evs: seq<Event>)
    requires After(evs).Some?
    ensures AllRecorded(After(evs).value) && MakersUnmake(After(evs).value.world.log)
  {
    if evs != [] {
      hide Apply, Close, Turn, Good, MakersUnmake;
      var s, ev := After(evs[..|evs| - 1]).value, evs[|evs| - 1];
      RecordedAlways(evs[..|evs| - 1]);
      if ev.Do? || ev.Destroy? {
        var c, op := s.callables[ev.k].value, if ev.Do? then ev.op else DoClose;
        assert Recorded(Some(c), s.world.log);
        CloseApplies(c, s.world);
        ApplyTurns(c, s.world, op);
        TurnRecorded(c, s.world, Apply(c, s.world, op).0, Apply(c, s.world, op).1);
      }
    } else {
      assert MakersUnmake(START.world.log);
    }
  }

  // ----- library handles -----

  /** The callable's library, if it has one, is the cached handle of that name in the environment. */
  predicate FromCache(c: Fields, w: World, env: EnvId) {
    c.library.Some? ==> c.libName in Cache(w, env) && Cache(w, env)[c.libName] == c.library.value
  }

  /** Cached handles stay. */
  ghost predicate CachesGrow(w: World, w': World) {
    forall e, lib :: lib in Cache(w, e) ==> lib in Cache(w', e) && Cache(w', e)[lib] == Cache(w, e)[lib]
  }

  lemma OpenCaches(c: Fields, w: World, lib: string, os: Answers)
    requires Good(c) && c.env.Some?
    ensures var (c', w', v) := Open(c, w, lib, os); FromCache(c', w', c.env.value) && CachesGrow(w, w')
  {
  }

  lemma MakeCaches(c: Fields, w: World, func: string, os: Answers, env: EnvId)
    requires Good(c) && c.library.Some? && c.env.Some?
    ensures var (c', w', v) := OpenMakerAndMake(c, w, func, os);
            w'.caches == w.caches && (FromCache(c', w', env) <==> FromCache(c, w, env))
  {
  }

  /** After an initialisation the library is the cached one of the new environment if and only if it was
      opened now or was that already: an open library is not looked up again when only the environment changes. */
  lemma InitCaches(c: Fields, w: World, env: EnvId, lib: string, func: string, forceNew: bool, os: Answers)
    requires Good(c)
    ensures var (c', w', v) := InitSmf(c, w, env, lib, func, forceNew, os);
            CachesGrow(w, w')
            && (FromCache(c', w', env) <==> lib != c.libName || c.program.None? || FromCache(c, w, env))
  {
    hide Open, OpenMakerAndMake;
    var c0 := c.(env := Some(env));
    OpenTurns(c0, w, lib, os);
    OpenCaches(c0, w, lib, os);
    var (c1, w1, v1) :=
      if lib != c0.libName || c0.program.None? then Open(c0, w, lib, os) else (c0, w, Returned(true));
    if v1.Returned? {
      MakeCaches(c1, w1, func, os, env);
    }
  }

  lemma AttachCaches(c: Fields, w: World, lib: string, os: Answers)
    requires Good(c) && c.env.Some?
    ensures var (c', w', v) := Attach(c, w, lib, os); FromCache(c', w', c.env.value) && CachesGrow(w, w')
  {
    hide Open, OpenMakerAndMake;
    OpenTurns(c, w, lib, os);
    OpenCaches(c, w, lib, os);
    var (c1, w1, v1) := Open(c, w, lib, os);
    if v1.Returned? {
      MakeCaches(c1, w1, MAKER_SYMBOL, os, c.env.value);
    }
  }

  /** The environments that a run uses. */
  ghost predicate Uses(evs: seq<Event>, envs: set<EnvId>) {
    forall j :: 0 <= j < |evs| ==> EventUses(evs[j], envs)
  }

  predicate EventUses(ev: Event, envs: set<EnvId>) {
    match ev
    case New(e, _, _) => e.Some? ==> e.value in envs
    case Do(_, op) => OpUses(op, envs)
    case Destroy(_) => true
  }

  predicate OpUses(op: Operation, envs: set<EnvId>) {
    op.DoInit? ==> op.env in envs
  }

  /** The callable's library, if it has one, is the cached handle of its name in one of the environments. */
  ghost predicate Cached(c: Fields, w: World, envs: set<EnvId>) {
    && (c.env.Some? ==> c.env.value in envs)
    && (c.library.Some? ==> c.env.Some? && exists e :: e in envs && FromCache(c, w, e))
  }

  ghost predicate Settled(c: Option<Fields>, w: World, envs: set<EnvId>) {
    c.Some? ==> Cached(c.value, w, envs)
  }

  ghost predicate AllSettled(s: System, w: World, envs: set<EnvId>) {
    forall k :: 0 <= k < |s.callables| ==> Settled(s.callables[k], w, envs)
  }

  lemma MakeKeeps(c: Fields, w: World, func: string, os: Answers)
    requires Good(c) && c.library.Some? && c.env.Some?
    ensures var c' := OpenMakerAndMake(c, w, func, os).0;
            c'.env == c.env && c'.library == c.library && c'.libName == c.libName
  {
  }

  lemma InitKeeps(c: Fields, w: World, env: EnvId, lib: string, func: string, forceNew: bool, os: Answers)
    requires Good(c)
    ensures var c' := InitSmf(c, w, env, lib, func, forceNew, os).0;
            && c'.env == Some(env)
            && (lib == c.libName && c.program.Some? ==> c'.library == c.library && c'.libName == c.libName)
  {
    hide Open, OpenMakerAndMake;
    var c0 := c.(env := Some(env));
    OpenTurns(c0, w, lib, os);
    var (c1, w1, v1) :=
      if lib != c0.libName || c0.program.None? then Open(c0, w, lib, os) else (c0, w, Returned(true));
    if v1.Returned? {
      MakeKeeps(c1, w1, func, os);
    }
  }

  lemma StillCached(c: Fields, w: World, c': Fields, w': World, envs: set<EnvId>)
    requires Cached(c, w, envs) && CachesGrow(w, w') && c'.library == c.library && c'.libName == c.libName
    requires c'.env.Some? && c'.env.value in envs
    ensures Cached(c', w', envs)
  {
    hide Cache;
    if c.library.Some? {
      var e :| e in envs && FromCache(c, w, e);
      assert FromCache(c', w', e);
    }
  }

  lemma InitCached(
    c: Fields, w: World, env: EnvId, lib: string, func: string, forceNew: bool, os: Answers, envs: set<EnvId>)
    requires Good(c) && Cached(c, w, envs) && env in envs
    ensures var (c', w', v) := InitSmf(c, w, env, lib, func, forceNew, os); Cached(c', w', envs) && CachesGrow(w, w')
  {
    hide InitSmf, FromCache, Cache;
    var (c', w', v) := InitSmf(c, w, env, lib, func, forceNew, os);
    InitCaches(c, w, env, lib, func, forceNew, os);
    InitKeeps(c, w, env, lib, func, forceNew, os);
    if lib == c.libName && c.program.Some? {
      StillCached(c, w, c', w', envs);
    }
  }

  lemma AttachCached(c: Fields, w: World, lib: string, os: Answers, envs: set<EnvId>)
    requires Good(c) && c.env.Some? && c.env.value in envs
    ensures var (c', w', v) := Attach(c, w, lib, os); Cached(c', w', envs) && CachesGrow(w, w')
  {
    hide Open, OpenMakerAndMake, Cache, FromCache;
    AttachCaches(c, w, lib, os);
    OpenTurns(c, w, lib, os);
    var (c1, w1, v1) := Open(c, w, lib, os);
    if v1.Returned? {
      MakeKeeps(c1, w1, MAKER_SYMBOL, os);
    }
  }

  lemma ApplyCached(c: Fields, w: World, op: Operation, envs: set<EnvId>)
    requires Good(c) && Possible(c, op) && Cached(c, w, envs) && OpUses(op, envs)
    ensures Cached(Apply(c, w, op).0, Apply(c, w, op).1, envs) && CachesGrow(w, Apply(c, w, op).1)
  {
    hide Attach, InitSmf, Cache, FromCache;
    match op
    case DoInit(e, lib, func, forceNew, os) => InitCached(c, w, e, lib, func, forceNew, os, envs);
    case DoAttach(lib, os) => AttachCached(c, w, lib, os, envs);
    case DoAssign(lib, os) =>
      CloseCaches(c, w);
      if lib != c.libName && lib != "" {
        var (c1, w1) := Close(c, w);
        AttachCached(c1, w1, lib, os, envs);
      }
    case DoClose => CloseCaches(c, w);
  }

  lemma CloseCaches(c: Fields, w: World)
    requires Good(c)
    ensures forall e :: Cache(Close(c, w).1, e) == Cache(w, e)
  {
  }

  lemma GrowSettled(c: Option<Fields>, w: World, w': World, envs: set<EnvId>)
    requires Settled(c, w, envs) && CachesGrow(w, w')
    ensures Settled(c, w', envs)
  {
    if c.Some? && c.value.library.Some? {
      StillCached(c.value, w, c.value, w', envs);
    }
  }

  /** In every run each open library is the cached handle of its name in one of the environments used. */
  lemma {:induction false} HandlesAreCached(evs: seq<Event>, envs: set<EnvId>)
    requires After(evs).Some? && Uses(evs, envs)
    ensures AllSettled(After(evs).value, After(evs).value.world, envs)
  {
    if evs != [] {
      hide Apply, Close, Settled, Good, Possible, CachesGrow, EventUses;
      var s, ev := After(evs[..|evs| - 1]).value, evs[|evs| - 1];
      assert forall j :: 0 <= j < |evs| - 1 ==> evs[j] == evs[..|evs| - 1][j];
      HandlesAreCached(evs[..|evs| - 1], envs);
      EventMeans(ev, envs);
      match ev
      case New(e, lib, func) => NewSettled(e, lib, func, s.world, envs);
      case Do(k, op) => OthersSettled(s, k, op, envs);
      case Destroy(k) =>
        CloseApplies(s.callables[k].value, s.world);
        CloseFacts(s.callables[k].value, envs);
        OthersSettled(s, k, DoClose, envs);
        NoneSettled(After(evs).value.world, envs);
    }
  }

  lemma EventMeans(ev: Event, envs: set<EnvId>)
    requires EventUses(ev, envs)
    ensures ev.New? && ev.env.Some? ==> ev.env.value in envs
    ensures ev.Do? ==> OpUses(ev.op, envs)
  {
  }

  lemma CloseFacts(c: Fields, envs: set<EnvId>)
    ensures Possible(c, DoClose) && OpUses(DoClose, envs)
  {
  }

  lemma NoneSettled(w: World, envs: set<EnvId>)
    ensures Settled(None, w, envs)
  {
  }

  lemma NewSettled(e: Option<EnvId>, lib: string, func: string, w: World, envs: set<EnvId>)
    requires e.Some? ==> e.value in envs
    ensures Settled(Some(Fields(e, lib, func, None, None, None, false)), w, envs)
  {
  }

  lemma OthersSettled(s: System, k: nat, op: Operation, envs: set<EnvId>)
    requires Alive(s, k) && Good(s.callables[k].value) && Possible(s.callables[k].value, op)
    requires AllSettled(s, s.world, envs) && OpUses(op, envs)
    ensures var (c, w) := Apply(s.callables[k].value, s.world, op);
            Settled(Some(c), w, envs) && forall j :: 0 <= j < |s.callables| && j != k ==> Settled(s.callables[j], w, envs)
  {
    hide Apply, Good, Possible, CachesGrow, Cached, OpUses;
    assert Settled(s.callables[k], s.world, envs);
    ApplyCached(s.callables[k].value, s.world, op, envs);
    var (c, w) := Apply(s.callables[k].value, s.world, op);
    forall j | 0 <= j < |s.callables| && j != k
      ensures Settled(s.callables[j], w, envs)
    {
      GrowSettled(s.callables[j], s.world, w, envs);
    }
  }

  /** So in a run within one environment it is the cached handle of that one. */
  lemma OneEnvironment(evs: seq<Event>, env: EnvId, k: nat)
    requires After(evs).Some? && Uses(evs, {env}) && Alive(After(evs).value, k)
    ensures var s := After(evs).value; FromCache(s.callables[k].value, s.world, env)
  {
    hide After, FromCache, Cache;
    HandlesAreCached(evs, {env});
    var s := After(evs).value;
    assert Settled(s.callables[k], s.world, {env});
    NoLibrary(s.callables[k].value, s.world, env);
  }

  lemma NoLibrary(c: Fields, w: World, env: EnvId)
    ensures c.library.None? ==> FromCache(c, w, env)
  {
  }

  /** With two environments it need not be that of the last one: a callable initialised in one and then, with the
      same names, in the other keeps a library that the cache of the other does not have. */
  lemma TwoEnvironments(lib: string, func: string, h: Handle, a: EnvId, b: EnvId)
    requires func != "" && a != b
    ensures var os := Answers(Some(h), true, Created);
            var evs := [New(None, "", ""), Do(0, DoInit(a, lib, func, false, os)), Do(0, DoInit(b, lib, func, false, os))];
            && After(evs).Some?
            && var s := After(evs).value;
               Alive(s, 0) && s.callables[0].value.env == Some(b) && s.callables[0].value.library.Some?
               && !FromCache(s.callables[0].value, s.world, b)
  {
    var os := Answers(Some(h), true, Created);
    var e0, op1, op2 := New(None, "", ""), DoInit(a, lib, func, false, os), DoInit(b, lib, func, false, os);
    var c0 := Fields(None, "", "", None, None, None, false);
    var c1 := Fields(Some(a), lib, func, Some(h), Some(Maker(h, func)), Some(0), true);
    var c2 := c1.(env := Some(b));
    var w1 := World(map[a := map[lib := h]], [Made(0, Maker(h, func))], 1);
    FirstInit(a, lib, func, h, os);
    SameNamesInit(c1, w1, b, os);
    hide Apply, After;
    FirstNew();
    OneMore([e0], START.world, c0, op1, w1, c1);
    OneMore([e0] + [Do(0, op1)], w1, c1, op2, w1, c2);
    assert [e0] + [Do(0, op1)] + [Do(0, op2)] == [e0, Do(0, op1), Do(0, op2)];
  }

  /** An initialisation with the names that a callable has changes nothing but its environment. */
  lemma SameNamesInit(c: Fields, w: World, b: EnvId, os: Answers)
    requires Good(c) && c.program.Some?
    ensures Apply(c, w, DoInit(b, c.libName, c.funcName, false, os)) == (c.(env := Some(b)), w)
  {
  }

  lemma FirstNew()
    ensures After([New(None, "", "")]) == Some(System(START.world, [Some(Fields(None, "", "", None, None, None, false))]))
  {
    var e := New(None, "", "");
    assert After([e][..0]) == Some(START);
    assert CanHappen(START, e) && Next(START, e).callables == [Some(Fields(None, "", "", None, None, None, false))];
  }

  /** An operation on the only callable of a run. */
  lemma OneMore(evs: seq<Event>, w: World, c: Fields, op: Operation, w': World, c': Fields)
    requires After(evs) == Some(System(w, [Some(c)])) && Good(c) && Possible(c, op) && Apply(c, w, op) == (c', w')
    ensures After(evs + [Do(0, op)]) == Some(System(w', [Some(c')]))
  {
    hide Apply, Good, Possible;
    assert (evs + [Do(0, op)])[..|evs|] == evs;
    assert [Some(c)][0 := Some(c')] == [Some(c')];
  }

  lemma FirstInit(a: EnvId, lib: string, func: string, h: Handle, os: Answers)
    requires func != "" && os == Answers(Some(h), true, Created)
    ensures Apply(Fields(None, "", "", None, None, None, false), START.world, DoInit(a, lib, func, false, os))
            == (Fields(Some(a), lib, func, Some(h), Some(Maker(h, func)), Some(0), true),
                World(map[a := map[lib := h]], [Made(0, Maker(h, func))], 1))
  {
    var w := InitSmf(Fields(None, "", "", None, None, None, false), START.world, a, lib, func, false, os).1;
    assert w.log == [Made(0, Maker(h, func))];
    assert w.caches == map[a := map[lib := h]];
  }

  // ----- when initsmf says that it is ready -----

  /** When an initialisation returns true, the callable has a program if and only if a new one was forced,
      or the function name changed, or it had one of that library already. If it has one, then it is of
      the function and the library asked for. */
  lemma ReadyMeans(c: Fields, w: World, env: EnvId, lib: string, func: string, forceNew: bool, os: Answers)
    requires Good(c) && InitSmf(c, w, env, lib, func, forceNew, os).2 == Returned(true)
    ensures var c' := InitSmf(c, w, env, lib, func, forceNew, os).0;
            && c'.libName == lib && c'.funcName == func && c'.library.Some?
            && (c'.program.Some? <==> forceNew || func != c.funcName || (lib == c.libName && c.program.Some?))
            && (c'.program.Some? ==> c'.maker == Some(Maker(c'.library.value, func)))
            && (forceNew ==> c'.program == Some(w.programs) && c'.hasMain)
  {
  }

  /** The handle that the cache of an environment has of a library. */
  predicate Knows(w: World, env: EnvId, lib: string) {
    env in w.caches && lib in w.caches[env]
  }

  /** Closing deletes the object, if any, by its maker, and forgets the library and its name but not the function's. */
  lemma CloseMeans(c: Fields, w: World)
    requires Good(c)
    ensures var (c', w') := Close(c, w);
            && c'.library == None && c'.libName == "" && c'.program == None && !c'.hasMain
            && c'.env == c.env && c'.funcName == c.funcName && c'.maker == c.maker
            && w'.caches == w.caches && w'.programs == w.programs
            && w'.log == w.log + if c.program.Some? then [Unmade(c.program.value, c.maker.value)] else []
  {
  }

  /** When an initialisation returns true or false and when it throws, by what the callable had and what the system
      answers: the library must be open with an object, or cached, or opened now; and if an object is asked for - by force
      or because the function is another one - its maker must be found and make one with a main function. */
  lemma InitVerdict(c: Fields, w: World, env: EnvId, lib: string, func: string, forceNew: bool, os: Answers)
    requires Good(c)
    ensures var verdict := InitSmf(c, w, env, lib, func, forceNew, os).2;
            var ready := (lib == c.libName && c.program.Some?) || Knows(w, env, lib) || os.dlopen.Some?;
            var wanted := forceNew || func != c.funcName;
            && (verdict == Returned(true) <==> ready && (!wanted || (os.dlsym && os.creation == Created)))
            && (verdict == Returned(false) <==>
                  ready && wanted && os.dlsym && (os.creation == CreatedWithoutMain || os.creation == NothingCreated))
            && (verdict == Threw <==> !ready || (wanted && (!os.dlsym || os.creation == ConstructorThrew)))
  {
  }

  lemma OpenMeans(c: Fields, w: World, lib: string, os: Answers)
    requires Good(c) && c.env.Some?
    ensures var (c', w', v) := Open(c, w, lib, os);
            var known := Knows(w, c.env.value, lib);
            && (v == Returned(true) <==> known || os.dlopen.Some?) && (v.Returned? ==> v.ok)
            && c'.env == c.env && c'.funcName == c.funcName && c'.program == None && w'.programs == w.programs
            && (v.Returned? ==>
                  && c'.libName == lib && c'.library == (if known then Some(w.caches[c.env.value][lib]) else os.dlopen)
                  && w'.caches == (if known then w.caches
                       else w.caches[c.env.value :=
                         (if c.env.value in w.caches then w.caches[c.env.value] else map[])[lib := os.dlopen.value]]))
  {
  }

  lemma MakeMeans(c: Fields, w: World, func: string, os: Answers)
    requires Good(c) && c.library.Some?
    ensures var (c', w', v) := OpenMakerAndMake(c, w, func, os);
            && (v == Returned(true) ==>
                  && c' == c.(funcName := func, maker := Some(Maker(c.library.value, func)),
                              program := Some(w.programs), hasMain := true)
                  && w'.programs == w.programs + 1 && w'.caches == w.caches)
  {
  }

  /** What an initialisation that returns true leaves: the library of the callable, of the cache or of the system; an
      object made now, or the one before; and the caches, with the library if it was opened now. The log has the
      deletion of the object before, only if its library or function is another one or a new one is forced, and the
      making of the new one. */
  lemma InitLeaves(c: Fields, w: World, env: EnvId, lib: string, func: string, forceNew: bool, os: Answers)
    requires Good(c) && InitSmf(c, w, env, lib, func, forceNew, os).2 == Returned(true)
    ensures var (c', w', _) := InitSmf(c, w, env, lib, func, forceNew, os);
            var open, wanted := lib == c.libName && c.program.Some?, forceNew || func != c.funcName;
            && c'.env == Some(env) && c'.libName == lib && c'.funcName == func
            && c'.library == (if open then c.library else if Knows(w, env, lib) then Some(w.caches[env][lib]) else os.dlopen)
            && c'.program == (if wanted then Some(w.programs) else if open then c.program else None)
            && w'.programs == (if wanted then w.programs + 1 else w.programs)
            && w'.caches == (if open || Knows(w, env, lib) then w.caches
                             else w.caches[env := (if env in w.caches then w.caches[env] else map[])[lib := os.dlopen.value]])
  {
    var c0 := c.(env := Some(env));
    var open := lib == c.libName && c.program.Some?;
    if !open {
      OpenMeans(c0, w, lib, os);
    }
    var (c1, w1, v1) := if open then (c0, w, Returned(true)) else Open(c0, w, lib, os);
    if forceNew || func != c.funcName {
      MakeMeans(c1, w1, func, os);
    }
    hide Open, OpenMakerAndMake;
  }

  lemma InitLog(c: Fields, w: World, env: EnvId, lib: string, func: string, forceNew: bool, os: Answers)
    requires Good(c) && InitSmf(c, w, env, lib, func, forceNew, os).2 == Returned(true)
    ensures var (c', w', _) := InitSmf(c, w, env, lib, func, forceNew, os);
            var open, wanted := lib == c.libName && c.program.Some?, forceNew || func != c.funcName;
            && c'.library.Some?
            && (c.program.None? || (open && !wanted) ==>
                  w'.log == w.log + if wanted then [Made(w.programs, Maker(c'.library.value, func))] else [])
            && (c.program.Some? && !(open && !wanted) ==>
                  w'.log == w.log + [Unmade(c.program.value, c.maker.value)]
                            + if wanted then [Made(w.programs, Maker(c'.library.value, func))] else [])
  {
  }

  /** What one that fails leaves: the old object is gone in any case; without the library nothing is open; without the maker
      or when it throws or makes nothing, the library is open and there is no object; and an object without a main
      function stays. */
  lemma InitFails(c: Fields, w: World, env: EnvId, lib: string, func: string, forceNew: bool, os: Answers)
    requires Good(c) && InitSmf(c, w, env, lib, func, forceNew, os).2 != Returned(true)
    ensures var (c', w', _) := InitSmf(c, w, env, lib, func, forceNew, os);
            var ready := (lib == c.libName && c.program.Some?) || Knows(w, env, lib) || os.dlopen.Some?;
            && c'.env == Some(env) && !c'.hasMain
            && (!ready ==> c'.library == None && c'.libName == "" && c'.program == None && c'.funcName == c.funcName)
            && (ready ==> c'.library.Some? && c'.libName == lib)
            && (ready && !os.dlsym ==> c'.program == None && c'.maker == None && c'.funcName == c.funcName)
            && (ready && os.dlsym ==> c'.funcName == func && c'.maker == Some(Maker(c'.library.value, func)))
            && (ready && os.dlsym && os.creation != CreatedWithoutMain ==> c'.program == None && w'.programs == w.programs)
            && (ready && os.dlsym && os.creation == CreatedWithoutMain ==>
                  c'.program == Some(w.programs) && w'.programs == w.programs + 1)
  {
    var c0 := c.(env := Some(env));
    var open := lib == c.libName && c.program.Some?;
    if !open {
      OpenMeans(c0, w, lib, os);
      OpenFails(c0, w, lib, os);
    }
    var (c1, w1, v1) := if open then (c0, w, Returned(true)) else Open(c0, w, lib, os);
    if v1.Returned? && (forceNew || func != c.funcName) {
      MakeFails(c1, w1, func, os);
    }
    hide Open, OpenMakerAndMake;
  }

  lemma OpenFails(c: Fields, w: World, lib: string, os: Answers)
    requires Good(c) && c.env.Some?
    ensures var (c', _, v) := Open(c, w, lib, os);
            !c'.hasMain && (v.Threw? ==> c'.library == None && c'.libName == "")
  {
  }

  lemma MakeFails(c: Fields, w: World, func: string, os: Answers)
    requires Good(c) && c.library.Some? && OpenMakerAndMake(c, w, func, os).2 != Returned(true)
    ensures var (c', w', _) := OpenMakerAndMake(c, w, func, os);
            && c'.env == c.env && c'.library == c.library && c'.libName == c.libName && !c'.hasMain
            && (!os.dlsym ==> c'.program == None && c'.maker == None && c'.funcName == c.funcName)
            && (os.dlsym ==> c'.funcName == func && c'.maker == Some(Maker(c.library.value, func)))
            && (os.dlsym && os.creation != CreatedWithoutMain ==> c'.program == None && w'.programs == w.programs)
            && (os.dlsym && os.creation == CreatedWithoutMain ==>
                  c'.program == Some(w.programs) && w'.programs == w.programs + 1)
  {
  }

  /** The same for attaching a library, which always asks for a new object of its standard maker. */
  lemma AttachVerdict(c: Fields, w: World, lib: string, os: Answers)
    requires Good(c) && c.env.Some?
    ensures var (c', w', verdict) := Attach(c, w, lib, os);
            var ready := Knows(w, c.env.value, lib) || os.dlopen.Some?;
            && (verdict == Returned(true) <==> ready && os.dlsym && os.creation == Created)
            && (verdict == Returned(false) <==>
                  ready && os.dlsym && (os.creation == CreatedWithoutMain || os.creation == NothingCreated))
            && (verdict == Threw <==> !ready || !os.dlsym || os.creation == ConstructorThrew)
            && (verdict == Returned(true) ==>
                  && c'.libName == lib && c'.funcName == "exoprogram_createdelete_"
                  && c'.program == Some(w.programs) && c'.hasMain
                  && c'.library == (if Knows(w, c.env.value, lib) then Some(w.caches[c.env.value][lib]) else os.dlopen)
                  && c'.maker == Some(Maker(c'.library.value, "exoprogram_createdelete_")))
  {
  }

  /** And for assigning a library name. */
  lemma AssignVerdict(c: Fields, w: World, lib: string, os: Answers)
    requires Good(c) && c.env.Some?
    ensures var verdict := Assign(c, w, lib, os).2;
            var ready := Knows(w, c.env.value, lib) || os.dlopen.Some?;
            var attached := lib != c.libName && lib != "";
            && (verdict == Returned(true) <==> !attached || (ready && os.dlsym && os.creation == Created))
            && (verdict == Returned(false) <==>
                  attached && ready && os.dlsym && (os.creation == CreatedWithoutMain || os.creation == NothingCreated))
            && (verdict == Threw <==> attached && (!ready || !os.dlsym || os.creation == ConstructorThrew))
  {
  }

  /** Assigning the same name does nothing; the empty name leaves neither library nor program; and after
      another name was assigned with success there is a new program, of that library. */
  lemma AssignMeans(c: Fields, w: World, lib: string, os: Answers)
    requires Good(c) && c.env.Some?
    ensures var (c', w', v) := Assign(c, w, lib, os);
            && (lib == c.libName ==> c' == c && w' == w && v == Returned(true))
            && (v != Threw ==> c'.libName == lib)
            && (lib != c.libName && lib == "" ==> c'.library.None? && c'.program.None?)
            && (lib != c.libName && lib != "" && v == Returned(true) ==>
                  c'.program == Some(w.programs) && c'.hasMain && c'.library.Some?
                  && c'.maker == Some(Maker(c'.library.value, "exoprogram_createdelete_")))
  {
  }

  /** A callable built with its library and function names, never used: initialising it with the same
      names returns true without a program. */
  lemma ReadyWithoutProgram(w: World, env: EnvId, lib: string, func: string, h: Handle, os: Answers)
    requires os.dlopen == Some(h)
    ensures var (c, w', v) := InitSmf(Fields(Some(env), lib, func, None, None, None, false), w, env, lib, func, false, os);
            v == Returned(true) && c.program.None?
  {
  }
}
