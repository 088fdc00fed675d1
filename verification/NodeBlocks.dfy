/**
  The node-level blocks (policy and resolver) from push to store to restart:
  the ApplyPolicy and ApplyDns loops (server.go:1252-1287), acceptedBlock and
  blockFor (store.go:111-141) and the restore (server.go:1800-1839). The two
  blocks go the same way, so one model serves both.
*/
module NodeBlocks {
  import opened Common

  type Core(==, !new, 0)
  type Blob(==, !new, 0)

  /** A block as raw JSON: not there, a literal null, or something. */
  datatype Raw = Absent | Null | Text(blob: Blob)

  /** What a core makes of it: null is no block. */
  function Meaning(r: Raw): Option<Blob> {
    if r.Text? then Some(r.blob) else None
  }

  /** Which blocks a core can render. */
  type Renders = (Core, Option<Blob>) -> bool

  type Kept = map<Core, Raw>

  /** blockFor. */
  function BlockFor(c: Core, stored: Raw, except: Kept): Raw {
    if c !in except then stored
    else if except[c] == Null then Absent
    else except[c]
  }

  /** What a core runs after it is handed a block: the block, or what it ran when it refuses. */
  function Taking(renders: Renders, c: Core, was: Option<Blob>, given: Raw): Option<Blob> {
    if renders(c, Meaning(given)) then Meaning(given) else was
  }

  function RunningAfter(cores: set<Core>, renders: Renders, running: map<Core, Option<Blob>>, req: Raw, kept: Kept)
    : map<Core, Option<Blob>>
    requires cores <= running.Keys
  {
    map c | c in cores :: Taking(renders, c, running[c], BlockFor(c, req, kept))
  }

  /** The same while only some of the cores have been handed it. */
  function RunningAfterSome(asked: set<Core>, renders: Renders, running: map<Core, Option<Blob>>, req: Raw, kept: Kept)
    : map<Core, Option<Blob>>
  {
    map c | c in running :: if c in asked then Taking(renders, c, running[c], BlockFor(c, req, kept)) else running[c]
  }

  lemma OneMoreRuns(asked: set<Core>, c: Core, renders: Renders, running: map<Core, Option<Blob>>, req: Raw, kept: Kept)
    requires c in running && c !in asked
    ensures var so := RunningAfterSome(asked, renders, running, req, kept);
            so[c := Taking(renders, c, so[c], BlockFor(c, req, kept))] ==
                RunningAfterSome(asked + {c}, renders, running, req, kept)
  {
  }

  /** The cores that refuse what they are handed. */
  function Refusing(cores: set<Core>, renders: Renders, req: Raw, kept: Kept): set<Core> {
    set c | c in cores && !renders(c, Meaning(BlockFor(c, req, kept)))
  }

  predicate SomeoneTakes(cores: set<Core>, renders: Renders, req: Raw, kept: Kept) {
    exists c :: c in cores && renders(c, Meaning(BlockFor(c, req, kept)))
  }

  lemma OneMoreAsked(cores: set<Core>, c: Core, renders: Renders, req: Raw, kept: Kept)
    ensures var takes := renders(c, Meaning(BlockFor(c, req, kept)));
      && Refusing(cores + {c}, renders, req, kept) == Refusing(cores, renders, req, kept) + (if takes then {} else {c})
      && (SomeoneTakes(cores + {c}, renders, req, kept) <==> SomeoneTakes(cores, renders, req, kept) || takes)
  {
  }

  /** acceptedBlock, for the cores that refused out of all that were asked. */
  function AcceptedBlock(prev: Raw, prevExcept: Kept, pushed: Raw, refused: set<Core>, taken: bool): (Raw, Kept) {
    if refused == {} then (pushed, map[])
    else if !taken then (prev, prevExcept)
    else (pushed, map c | c in refused :: if c in prevExcept then prevExcept[c] else prev)
  }

  /** A map entry that is not there is written, and read back, as null. */
  function Saved(except: Kept): Kept {
    map c | c in except :: if except[c] == Absent then Null else except[c]
  }

  datatype State = State(running: map<Core, Option<Blob>>, stored: Raw, except: Kept, inbounds: bool)

  /** A push. `inbounds`: the accepted push holds at least one. */
  function Pushed(cores: set<Core>, renders: Renders, s: State, req: Raw, inbounds: bool): State
    requires cores <= s.running.Keys
  {
    var refused := Refusing(cores, renders, req, map[]);
    var (stored, except) := AcceptedBlock(s.stored, s.except, req, refused, SomeoneTakes(cores, renders, req, map[]));
    State(RunningAfter(cores, renders, s.running, req, map[]), stored, Saved(except), inbounds)
  }

  function Nothing(cores: set<Core>): map<Core, Option<Blob>> {
    map c | c in cores :: None
  }

  /** An agent restart: the cores come up with nothing, and are handed what the store says. */
  function Restarted(cores: set<Core>, renders: Renders, s: State): State {
    s.(running := if s.inbounds then RunningAfter(cores, renders, Nothing(cores), s.stored, s.except)
        else Nothing(cores))
  }

  /** The cores as the server drives them, and its store. */
  class Node {
    const adapters: seq<Core>
    const renders: Renders
    var running: map<Core, Option<Blob>>
    var stored: Raw
    var except: Kept
    var inbounds: bool

    ghost function View(): State
      reads this
    {
      State(running, stored, except, inbounds)
    }

    ghost function Cores(): set<Core> {
      set c | c in adapters
    }

    /** Each adapter once. */
    ghost predicate Valid()
      reads this
    {
      running.Keys == Cores() && forall i, j :: 0 <= i < j < |adapters| ==> adapters[i] != adapters[j]
    }

    constructor (adapters: seq<Core>, renders: Renders)
      requires forall i, j :: 0 <= i < j < |adapters| ==> adapters[i] != adapters[j]
      ensures Valid() && this.adapters == adapters && this.renders == renders
      ensures View() == State(Nothing(Cores()), Absent, map[], false)
    {
      this.adapters, this.renders := adapters, renders;
      running := map c | c in adapters :: None;
      stored, except, inbounds := Absent, map[], false;
      new;
      assert running == Nothing(Cores());
    }

    /** One core's ApplyPolicy, or ApplyDns. */
    method ApplyOne(c: Core, given: Raw) returns (took: bool)
      requires c in running
      modifies `running
      ensures took <==> renders(c, Meaning(given))
      ensures running == old(running)[c := Taking(renders, c, old(running)[c], given)]
    {
      took := renders(c, Meaning(given));
      if took {
        running := running[c := Meaning(given)];
      }
    }

    /** The loop over the adapters: what they run after it, who refused and whether anyone took it. */
    method ApplyToAll(req: Raw, kept: Kept) returns (refusedBy: set<Core>, taken: bool)
      requires Valid()
      modifies `running
      ensures Valid()
      ensures running == RunningAfter(Cores(), renders, old(running), req, kept)
      ensures refusedBy == Refusing(Cores(), renders, req, kept)
      ensures taken <==> SomeoneTakes(Cores(), renders, req, kept)
    {
      refusedBy, taken := {}, false;
      ghost var done: set<Core> := {};
      for k := 0 to |adapters|
        invariant done <= Cores() && forall i :: 0 <= i < |adapters| ==> (adapters[i] in done <==> i < k)
        invariant running == RunningAfterSome(done, renders, old(running), req, kept)
        invariant refusedBy == Refusing(done, renders, req, kept)
        invariant taken <==> SomeoneTakes(done, renders, req, kept)
      {
        var c := adapters[k];
        var took := ApplyOne(c, BlockFor(c, req, kept));
        OneMoreRuns(done, c, renders, old(running), req, kept);
        OneMoreAsked(done, c, renders, req, kept);
        if took {
          taken := true;
        } else {
          refusedBy := refusedBy + {c};
        }
        done := done + {c};
      }
      assert done == Cores();
    }

    method Accept(pushed: Raw, refusedBy: set<Core>, taken: bool) returns (block: Raw, exceptions: Kept)
      ensures (block, exceptions) == AcceptedBlock(stored, except, pushed, refusedBy, taken)
    {
      if refusedBy == {} {
        return pushed, map[];
      }
      if !taken {
        return stored, except;
      }
      block, exceptions := pushed, map[];
      var todo := refusedBy;
      while todo != {}
        invariant todo <= refusedBy && exceptions.Keys == refusedBy - todo
        invariant forall c :: c in exceptions ==> exceptions[c] == if c in except then except[c] else stored
      {
        var c :| c in todo;
        exceptions := exceptions[c := if c in except then except[c] else stored];
        todo := todo - {c};
      }
      assert exceptions == AcceptedBlock(stored, except, pushed, refusedBy, taken).1;
    }

    method Push(req: Raw, hasInbounds: bool)
      requires Valid()
      modifies this
      ensures Valid()
      ensures View() == Pushed(Cores(), renders, old(View()), req, hasInbounds)
    {
      var refusedBy, taken := ApplyToAll(req, map[]);
      var block, exceptions := Accept(req, refusedBy, taken);
      stored, except, inbounds := block, Saved(exceptions), hasInbounds;
    }

    /** A new process over the same store. */
    method Restart()
      requires Valid()
      modifies this
      ensures Valid()
      ensures View() == Restarted(Cores(), renders, old(View()))
    {
      running := map c | c in adapters :: None;
      assert running == Nothing(Cores());
      if inbounds {
        var _, _ := ApplyToAll(stored, except);
      }
    }
  }

  // ------------------------------------------------------------------- whole runs

  datatype Event = Push(req: Raw, inbounds: bool) | Restart

  function After(cores: set<Core>, renders: Renders, s: State, e: Event): State
    requires cores <= s.running.Keys
  {
    match e
    case Push(req, inbounds) => Pushed(cores, renders, s, req, inbounds)
    case Restart => Restarted(cores, renders, s)
  }

  function Run(cores: set<Core>, renders: Renders, s: State, es: seq<Event>): State
    requires cores <= s.running.Keys
    decreases |es|
  {
    if es == [] then s else Run(cores, renders, After(cores, renders, s, es[0]), es[1..])
  }

  /** The store names, core by core, what each core runs; and what runs, its core can render. */
  ghost predicate Faithful(cores: set<Core>, renders: Renders, s: State) {
    && cores == s.running.Keys
    && (forall c :: c in cores ==> Meaning(BlockFor(c, s.stored, s.except)) == s.running[c])
    && (forall c :: c in cores && s.running[c].Some? ==> renders(c, s.running[c]))
  }

  lemma PushKeepsFaithful(cores: set<Core>, renders: Renders, s: State, req: Raw, inbounds: bool)
    requires Faithful(cores, renders, s)
    ensures Faithful(cores, renders, Pushed(cores, renders, s, req, inbounds))
  {
    var refused := Refusing(cores, renders, req, map[]);
    var v := Pushed(cores, renders, s, req, inbounds);
    forall c | c in cores
      ensures Meaning(BlockFor(c, v.stored, v.except)) == v.running[c]
    {
      assert c in refused <==> !renders(c, Meaning(req));
      if !SomeoneTakes(cores, renders, req, map[]) {
        assert !renders(c, Meaning(BlockFor(c, req, map[])));
      }
    }
  }

  /**
    Every core comes back from a restart on exactly the block it ran, provided
    the stored push holds an inbound; without one the restore returns early,
    and then only a core that ran no block is as it was.
  */
  lemma RestartIsFaithfulIff(cores: set<Core>, renders: Renders, s: State)
    requires Faithful(cores, renders, s)
    ensures Restarted(cores, renders, s).running == s.running <==>
            s.inbounds || forall c :: c in cores ==> s.running[c].None?
  {
    var v := Restarted(cores, renders, s);
    if s.inbounds {
      forall c | c in cores
        ensures v.running[c] == s.running[c]
      {
        assert Meaning(BlockFor(c, s.stored, s.except)) == s.running[c];
      }
      assert v.running == s.running;
    } else if forall c :: c in cores ==> s.running[c].None? {
      assert v.running == s.running;
    } else {
      var c :| c in cores && s.running[c].Some?;
      assert v.running[c].None?;
    }
  }

  /** A restart in the run finds at least one stored inbound. */
  ghost predicate RestartsRestore(cores: set<Core>, renders: Renders, s: State, es: seq<Event>)
    requires cores <= s.running.Keys
    decreases |es|
  {
    es != [] ==> (es[0].Restart? ==> s.inbounds) &&
                 RestartsRestore(cores, renders, After(cores, renders, s, es[0]), es[1..])
  }

  /**
    Over any run of pushes, whichever cores refuse them, and restarts: the
    store hands each core the block that core runs, so a restart is not seen.
  */
  lemma {:induction false} StoreIsWhatRuns(cores: set<Core>, renders: Renders, s: State, es: seq<Event>)
    requires Faithful(cores, renders, s) && RestartsRestore(cores, renders, s, es)
    ensures Faithful(cores, renders, Run(cores, renders, s, es))
    ensures Run(cores, renders, s, es).inbounds ==>
              Restarted(cores, renders, Run(cores, renders, s, es)).running == Run(cores, renders, s, es).running
    decreases |es|
  {
    if es == [] {
      RestartIsFaithfulIff(cores, renders, s);
    } else {
      if es[0].Push? {
        PushKeepsFaithful(cores, renders, s, es[0].req, es[0].inbounds);
      } else {
        RestartIsFaithfulIff(cores, renders, s);
      }
      StoreIsWhatRuns(cores, renders, After(cores, renders, s, es[0]), es[1..]);
    }
  }

  lemma FreshIsFaithful(cores: set<Core>, renders: Renders)
    ensures Faithful(cores, renders, State(Nothing(cores), Absent, map[], false))
  {
  }

  /**
    A push settles, core by core, what the next restart brings: the pushed block where
    it was taken, the old one elsewhere.
  */
  lemma RestartAfterPush(cores: set<Core>, renders: Renders, s: State, req: Raw, c: Core)
    requires Faithful(cores, renders, s) && c in cores
    ensures Restarted(cores, renders, Pushed(cores, renders, s, req, true)).running[c] ==
            if renders(c, Meaning(req)) then Meaning(req) else s.running[c]
  {
    PushKeepsFaithful(cores, renders, s, req, true);
    RestartIsFaithfulIff(cores, renders, Pushed(cores, renders, s, req, true));
  }

  // --------------------------------------------------------------------- what is run

  /** After a push each core that can render the block runs it, every other what it ran; a null is no block. */
  lemma PushRuns(cores: set<Core>, renders: Renders, s: State, req: Raw, inbounds: bool, c: Core)
    requires cores == s.running.Keys && c in cores
    ensures var now := Pushed(cores, renders, s, req, inbounds).running;
      && now.Keys == cores
      && (req.Text? && renders(c, Some(req.blob)) ==> now[c] == Some(req.blob))
      && (!req.Text? && renders(c, None) ==> now[c] == None)
      && (!renders(c, if req.Text? then Some(req.blob) else None) ==> now[c] == s.running[c])
    ensures Pushed(cores, renders, s, req, inbounds).inbounds == inbounds
  {
  }

  /** The store keeps the pushed block as soon as one core takes it, and the old one when none does. */
  lemma PushStores(cores: set<Core>, renders: Renders, s: State, req: Raw, inbounds: bool)
    requires cores <= s.running.Keys
    ensures var given := if req.Text? then Some(req.blob) else None;
      var taken := (exists c :: c in cores && renders(c, given)) || cores == {};
      Pushed(cores, renders, s, req, inbounds).stored == if taken then req else s.stored
  {
    var given := if req.Text? then Some(req.blob) else None;
    assert forall c :: BlockFor(c, req, map[]) == req;
    if c :| c in cores && renders(c, given) {
      assert renders(c, Meaning(BlockFor(c, req, map[])));
    } else if cores != {} {
      var c :| c in cores;
      assert c in Refusing(cores, renders, req, map[]);
    }
  }
}
