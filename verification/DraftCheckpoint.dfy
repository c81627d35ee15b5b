/** The encrypted composer draft of src/lib/draft-checkpoint.ts: any number of tabs share one browser
    storage, and each storage operation is a step of its own. Encryption is ideal: what is stored
    under a writer's key is what that writer sealed. */
module DraftCheckpoint {
  import opened Wrappers

  const MAX_DRAFT := 4000

  type Writer = nat
  type Revision = nat

  datatype Sealed = Sealed(draft: string, revision: Revision)

  /** How far a tab has come: its constructor, then rounds of `write`, until it is gone. */
  datatype Phase = Claiming | Loaded | Prepared | Published | Open | Writing(draft: string) | Gone

  /** `seen` is the record that the constructor has read, and `reset` says that it was told to ignore it. */
  datatype Tab = Tab(phase: Phase, previous: Option<Writer>, seen: Option<Sealed>, reset: bool, value: Sealed)

  /** `claimed` are the writers that have ever been published as owner, `authors` tells which tab drew
      a revision, and `latest` is the draft that was last accepted, by a `write` that did not fail or
      by a constructor that knew it. */
  datatype World = World(owner: Option<Writer>, records: map<Writer, Sealed>, tabs: map<Writer, Tab>, claimed: set<Writer>,
                         authors: map<Revision, Writer>, latest: Option<Sealed>)

  datatype Act =
    | Claim
    | Load(fallback: string, committed: Option<Revision>, reset: bool, unused: Revision)
    | Prepare
    | Publish
    | Sweep
    | Check(draft: string)
    | Store(unused: Revision)
    | Die

  /** What reopening would read. */
  function Current(w: World): Option<Sealed> {
    if w.owner.Some? && w.owner.value in w.records then Some(w.records[w.owner.value]) else None
  }

  function SetTab(w: World, t: Writer, tab: Tab): World {
    w.(tabs := w.tabs[t := tab])
  }

  function Taken(tab: Tab, fallback: string, committed: Option<Revision>, unused: Revision): Sealed {
    if tab.seen.None? then Sealed(fallback, unused)
    else if committed == Some(tab.seen.value.revision) then Sealed("", unused)
    else tab.seen.value
  }

  function LoadTab(w: World, t: Writer, fallback: string, committed: Option<Revision>, reset: bool, unused: Revision): World
    requires t in w.tabs
  {
    var tab := w.tabs[t];
    if tab.previous.None? || reset then
      SetTab(w, t, tab.(phase := Loaded, seen := None, reset := reset, value := Sealed(fallback, unused))).(authors := w.authors[unused := t])
    else if tab.previous.value !in w.records then SetTab(w, t, tab.(phase := Gone))
    else
      var seen := tab.(seen := Some(w.records[tab.previous.value]));
      SetTab(w, t, seen.(phase := Loaded, reset := false, value := Taken(seen, fallback, committed, unused))).(authors := w.authors[unused := t])
  }

  /** Did the tab read what was accepted last? */
  predicate Knows(w: World, tab: Tab) {
    tab.reset || tab.seen == w.latest
  }

  function PublishTab(w: World, t: Writer): World
    requires t in w.tabs
  {
    var tab := w.tabs[t];
    SetTab(w, t, tab.(phase := Published)).(owner := Some(t), claimed := w.claimed + {t},
                                            latest := if Knows(w, tab) then Some(tab.value) else w.latest)
  }

  function StoreTab(w: World, t: Writer, unused: Revision): World
    requires t in w.tabs && w.tabs[t].phase.Writing?
  {
    var value := Sealed(w.tabs[t].phase.draft, unused);
    SetTab(w, t, w.tabs[t].(phase := Open, value := value)).(records := w.records[t := value], authors := w.authors[unused := t], latest := Some(value))
  }

  function PrepareTab(w: World, t: Writer): World
    requires t in w.tabs
  {
    SetTab(w, t, w.tabs[t].(phase := Prepared)).(records := w.records[t := w.tabs[t].value])
  }

  function SweepTab(w: World, t: Writer): World
    requires t in w.tabs
  {
    var previous := w.tabs[t].previous;
    SetTab(w, t, w.tabs[t].(phase := Open)).(records := if previous.Some? then w.records - {previous.value} else w.records)
  }

  /** One storage operation of one tab; an operation out of turn changes nothing. */
  function Do(w: World, t: Writer, act: Act): World {
    match act
    case Claim =>
      if t in w.tabs then w else SetTab(w, t, Tab(Claiming, w.owner, None, false, Sealed("", 0)))
    case Load(fallback, committed, reset, unused) =>
      if t in w.tabs && w.tabs[t].phase.Claiming? && unused !in w.authors then LoadTab(w, t, fallback, committed, reset, unused) else w
    case Prepare =>
      if t in w.tabs && w.tabs[t].phase.Loaded? then PrepareTab(w, t) else w
    case Publish =>
      if t in w.tabs && w.tabs[t].phase.Prepared? then PublishTab(w, t) else w
    case Sweep =>
      if t in w.tabs && w.tabs[t].phase.Published? then SweepTab(w, t) else w
    case Check(draft) =>
      if t in w.tabs && w.tabs[t].phase.Open? && w.owner == Some(t) && |draft| <= MAX_DRAFT && draft != w.tabs[t].value.draft
      then SetTab(w, t, w.tabs[t].(phase := Writing(draft))) else w
    case Store(unused) =>
      if t in w.tabs && w.tabs[t].phase.Writing? && unused !in w.authors then StoreTab(w, t, unused) else w
    case Die =>
      if t in w.tabs then SetTab(w, t, w.tabs[t].(phase := Gone)) else w
  }

  // ----------------------------------------------------------------- invariant

  predicate Unpublished(tab: Tab) {
    tab.phase.Claiming? || tab.phase.Loaded? || tab.phase.Prepared?
  }

  /** The revision was drawn by this tab, or by one that has been published. */
  predicate Known(w: World, x: Sealed, t: Writer) {
    x.revision in w.authors && (w.authors[x.revision] == t || w.authors[x.revision] in w.claimed)
  }

  predicate Public(w: World, x: Sealed) {
    x.revision in w.authors && w.authors[x.revision] in w.claimed
  }

  predicate TabInv(w: World, t: Writer, tab: Tab) {
    && (Unpublished(tab) ==> t !in w.claimed)
    && (tab.phase.Published? || tab.phase.Open? || tab.phase.Writing? ==> t in w.claimed)
    && (tab.previous.Some? ==> tab.previous.value in w.claimed && tab.previous.value != t)
    && (tab.phase.Prepared? ==> t in w.records && w.records[t] == tab.value)
    && (tab.phase.Published? && tab.previous.Some? ==> w.owner != tab.previous)
    && (w.owner == Some(t) && !tab.phase.Gone? ==> t in w.records && w.records[t] == tab.value)
    && (tab.seen.Some? ==> Public(w, tab.seen.value))
    && (tab.phase.Loaded? || tab.phase.Prepared? ==> Known(w, tab.value, t))
    && ((tab.phase.Loaded? || tab.phase.Prepared?) && tab.seen != Some(tab.value) ==> w.authors[tab.value.revision] == t)
  }

  /** A published owner names a complete record, always. */
  predicate Inv(w: World) {
    && (w.owner.Some? ==> w.owner.value in w.records && w.owner.value in w.claimed)
    && (forall c <- w.claimed :: c in w.tabs)
    && (forall t <- w.tabs :: TabInv(w, t, w.tabs[t]))
    && (forall t <- w.records :: t in w.tabs && Known(w, w.records[t], t))
    && (w.latest.Some? ==> Public(w, w.latest.value))
  }

  /** What a step of tab `t` may change for the others. */
  predicate Frame(w: World, after: World, t: Writer) {
    && (forall u <- w.tabs | u != t :: u in after.tabs && after.tabs[u] == w.tabs[u])
    && (forall u <- after.tabs | u != t :: u in w.tabs)
    && (after.owner == w.owner || (after.owner == Some(t) && t !in w.claimed))
    && (after.claimed == w.claimed || (after.claimed == w.claimed + {t} && t !in w.claimed))
    && (forall r <- w.authors :: r in after.authors && after.authors[r] == w.authors[r])
    && (forall u <- after.records | u != t :: u in w.records && after.records[u] == w.records[u])
    && (forall u <- w.records | u != t :: u in after.records || (u in w.claimed && w.owner != Some(u)))
  }

  lemma StepFrame(w: World, t: Writer, act: Act)
    requires t in w.tabs && Unpublished(w.tabs[t]) ==> t !in w.claimed
    requires t in w.tabs && w.tabs[t].phase.Published? && w.tabs[t].previous.Some? ==>
               w.tabs[t].previous.value in w.claimed && w.owner != w.tabs[t].previous
    ensures Frame(w, Do(w, t, act), t)
  {
    hide Taken, Knows;
  }

  lemma OtherTabs(w: World, after: World, t: Writer, u: Writer)
    requires Inv(w) && Frame(w, after, t) && u in w.tabs && u != t
    ensures TabInv(after, u, after.tabs[u])
  {
    assert TabInv(w, u, w.tabs[u]);
  }

  lemma LoadKeeps(w: World, t: Writer, fallback: string, committed: Option<Revision>, reset: bool, unused: Revision)
    requires t in w.tabs && TabInv(w, t, w.tabs[t]) && w.tabs[t].phase.Claiming? && unused !in w.authors && w.owner != Some(t)
    requires w.tabs[t].previous.Some? && w.tabs[t].previous.value in w.records ==> Public(w, w.records[w.tabs[t].previous.value])
    ensures TabInv(LoadTab(w, t, fallback, committed, reset, unused), t, LoadTab(w, t, fallback, committed, reset, unused).tabs[t])
  {
  }

  lemma PublishKeeps(w: World, t: Writer)
    requires Inv(w) && t in w.tabs && w.tabs[t].phase.Prepared?
    ensures TabInv(PublishTab(w, t), t, PublishTab(w, t).tabs[t])
  {
    assert TabInv(w, t, w.tabs[t]);
  }

  lemma SweepKeeps(w: World, t: Writer)
    requires Inv(w) && t in w.tabs && w.tabs[t].phase.Published?
    ensures TabInv(SweepTab(w, t), t, SweepTab(w, t).tabs[t])
  {
    assert TabInv(w, t, w.tabs[t]);
    hide Known;
  }

  lemma StoreKeeps(w: World, t: Writer, unused: Revision)
    requires Inv(w) && t in w.tabs && w.tabs[t].phase.Writing? && unused !in w.authors
    ensures TabInv(StoreTab(w, t, unused), t, StoreTab(w, t, unused).tabs[t])
  {
    assert TabInv(w, t, w.tabs[t]);
  }

  lemma RecordsArePublic(w: World, t: Writer)
    requires Inv(w) && t in w.tabs && w.tabs[t].phase.Claiming?
    ensures w.owner != Some(t)
    ensures w.tabs[t].previous.Some? && w.tabs[t].previous.value in w.records ==> Public(w, w.records[w.tabs[t].previous.value])
  {
    assert TabInv(w, t, w.tabs[t]);
  }

  lemma OwnTab(w: World, t: Writer, act: Act)
    requires Inv(w) && t in Do(w, t, act).tabs
    ensures TabInv(Do(w, t, act), t, Do(w, t, act).tabs[t])
  {
    if t in w.tabs {
      assert TabInv(w, t, w.tabs[t]);
      if act.Load? && w.tabs[t].phase.Claiming? && act.unused !in w.authors {
        RecordsArePublic(w, t);
        LoadKeeps(w, t, act.fallback, act.committed, act.reset, act.unused);
      } else if act.Publish? && w.tabs[t].phase.Prepared? {
        PublishKeeps(w, t);
      } else if act.Sweep? && w.tabs[t].phase.Published? {
        SweepKeeps(w, t);
      } else if act.Store? && w.tabs[t].phase.Writing? && act.unused !in w.authors {
        StoreKeeps(w, t, act.unused);
      }
    }
    hide LoadTab, PublishTab, SweepTab, StoreTab, Known, Public;
  }

  lemma OwnRecord(w: World, t: Writer, act: Act)
    requires Inv(w)
    ensures var after := Do(w, t, act);
            && (t in after.records ==> t in after.tabs && Known(after, after.records[t], t))
            && (after.latest.Some? ==> Public(after, after.latest.value))
            && (after.owner.Some? ==> after.owner.value in after.records && after.owner.value in after.claimed)
            && (forall c <- after.claimed :: c in after.tabs)
  {
    if t in w.tabs {
      assert TabInv(w, t, w.tabs[t]);
    }
  }

  /** Every storage operation of every tab keeps the invariant. */
  lemma StepKeepsInv(w: World, t: Writer, act: Act)
    requires Inv(w)
    ensures Inv(Do(w, t, act))
  {
    var after := Do(w, t, act);
    if t in w.tabs {
      assert TabInv(w, t, w.tabs[t]);
    }
    StepFrame(w, t, act);
    OwnRecord(w, t, act);
    forall u <- after.tabs
      ensures TabInv(after, u, after.tabs[u])
    {
      if u == t {
        OwnTab(w, t, act);
      } else {
        OtherTabs(w, after, t, u);
      }
    }
    hide TabInv, Do, Public;
  }

  /** Only its own tab writes a record, so a superseded tab cannot alter the current draft. */
  lemma OldTabsCannotInterfere(w: World, t: Writer, act: Act)
    requires Inv(w) && w.owner.Some? && t != w.owner.value
    ensures Do(w, t, act).owner == w.owner ==> Current(Do(w, t, act)) == Current(w)
    ensures Do(w, t, act).owner != w.owner ==> act.Publish? && Do(w, t, act).owner == Some(t)
  {
  }

  // ------------------------------------------------------------- lost drafts

  /** The two steps that may lose an accepted draft: publishing what was read before it was
      accepted, and accepting a draft after another tab has taken over. */
  predicate Careful(w: World, t: Writer, act: Act) {
    && (act.Publish? && t in w.tabs && w.tabs[t].phase.Prepared? ==> Knows(w, w.tabs[t]))
    && (act.Store? && t in w.tabs && w.tabs[t].phase.Writing? && act.unused !in w.authors ==> w.owner == Some(t))
  }

  /** Reopening reads the last accepted draft after a step exactly when the step is careful. */
  lemma LosesExactly(w: World, t: Writer, act: Act)
    requires Inv(w) && Current(w) == w.latest
    ensures Current(Do(w, t, act)) == Do(w, t, act).latest <==> Careful(w, t, act)
  {
    if t in w.tabs {
      TabFacts(w, t);
    }
    hide Inv, TabInv, LoadTab;
    LoadIsQuiet(w, t, act);
  }

  lemma LoadIsQuiet(w: World, t: Writer, act: Act)
    ensures act.Load? && t in w.tabs ==>
              var after := LoadTab(w, t, act.fallback, act.committed, act.reset, act.unused);
              after.owner == w.owner && after.records == w.records && after.latest == w.latest
  {
  }

  lemma TabFacts(w: World, t: Writer)
    requires Inv(w) && t in w.tabs
    ensures var tab := w.tabs[t];
            && (Unpublished(tab) ==> t !in w.claimed)
            && (tab.phase.Prepared? ==> t in w.records && w.records[t] == tab.value)
            && (tab.phase.Published? && tab.previous.Some? ==> w.owner != tab.previous)
            && (tab.phase.Prepared? && tab.seen != Some(tab.value) ==> w.latest != Some(tab.value))
            && (w.owner.Some? ==> w.owner.value in w.claimed && w.owner.value in w.records)
            && (w.latest.Some? ==> w.latest.value.revision in w.authors)
  {
    assert TabInv(w, t, w.tabs[t]);
  }

  // ---------------------------------------------------------------------- runs

  predicate Start(w: World) {
    w == World(None, map[], map[], {}, map[], None)
  }

  function Run(w: World, run: seq<(Writer, Act)>): World {
    if run == [] then w else Do(Run(w, run[..|run| - 1]), run[|run| - 1].0, run[|run| - 1].1)
  }

  predicate CarefulRun(w: World, run: seq<(Writer, Act)>) {
    run == [] || (CarefulRun(w, run[..|run| - 1]) && Careful(Run(w, run[..|run| - 1]), run[|run| - 1].0, run[|run| - 1].1))
  }

  /** However the tabs interleave and wherever they die: an owner always names a complete record. */
  lemma {:induction false} RunKeepsInv(w: World, run: seq<(Writer, Act)>)
    requires Start(w)
    ensures Inv(Run(w, run))
    ensures Run(w, run).owner.Some? ==> Current(Run(w, run)).Some?
  {
    if run == [] {
    } else {
      RunKeepsInv(w, run[..|run| - 1]);
      StepKeepsInv(Run(w, run[..|run| - 1]), run[|run| - 1].0, run[|run| - 1].1);
      hide Do;
    }
  }

  /** A run of careful steps never loses an accepted draft. */
  lemma {:induction false} CarefulRunsLoseNothing(w: World, run: seq<(Writer, Act)>)
    requires Start(w) && CarefulRun(w, run)
    ensures Current(Run(w, run)) == Run(w, run).latest
  {
    if run == [] {
    } else {
      var front := run[..|run| - 1];
      RunKeepsInv(w, front);
      CarefulRunsLoseNothing(w, front);
      LosesExactly(Run(w, front), run[|run| - 1].0, run[|run| - 1].1);
      hide Do, Careful, Inv, Current;
    }
  }

  lemma RunStep(w: World, run: seq<(Writer, Act)>, t: Writer, act: Act)
    ensures Run(w, run + [(t, act)]) == Do(Run(w, run), t, act)
    ensures CarefulRun(w, run + [(t, act)]) <==> CarefulRun(w, run) && Careful(Run(w, run), t, act)
  {
    assert (run + [(t, act)])[..|run|] == run;
  }

  // ------------------------------------------------------ one tab at a time

  /** What a constructor that nobody disturbs takes over. */
  function Reopened(w: World, fallback: string, committed: Option<Revision>, reset: bool, unused: Revision): Sealed {
    if Current(w).None? || reset then Sealed(fallback, unused)
    else if committed == Some(Current(w).value.revision) then Sealed("", unused)
    else Current(w).value
  }

  lemma ClaimStep(w: World, t: Writer)
    requires t !in w.tabs
    ensures Do(w, t, Claim) == w.(tabs := w.tabs[t := Tab(Claiming, w.owner, None, false, Sealed("", 0))])
  {
  }

  lemma LoadStep(w: World, t: Writer, fallback: string, committed: Option<Revision>, reset: bool, unused: Revision)
    requires t in w.tabs && w.tabs[t].phase.Claiming? && unused !in w.authors
    requires w.tabs[t].previous.Some? && !reset ==> w.tabs[t].previous.value in w.records
    ensures var tab := w.tabs[t];
            var seen := if tab.previous.None? || reset then None else Some(w.records[tab.previous.value]);
            var value := if seen.None? then Sealed(fallback, unused) else if committed == Some(seen.value.revision) then Sealed("", unused) else seen.value;
            Do(w, t, Load(fallback, committed, reset, unused))
            == w.(tabs := w.tabs[t := Tab(Loaded, tab.previous, seen, reset, value)], authors := w.authors[unused := t])
  {
  }

  lemma PrepareStep(w: World, t: Writer)
    requires t in w.tabs && w.tabs[t].phase.Loaded?
    ensures Do(w, t, Prepare) == w.(tabs := w.tabs[t := w.tabs[t].(phase := Prepared)], records := w.records[t := w.tabs[t].value])
  {
  }

  lemma PublishStep(w: World, t: Writer)
    requires t in w.tabs && w.tabs[t].phase.Prepared?
    ensures Do(w, t, Publish) == w.(tabs := w.tabs[t := w.tabs[t].(phase := Published)], owner := Some(t), claimed := w.claimed + {t},
                                    latest := if Knows(w, w.tabs[t]) then Some(w.tabs[t].value) else w.latest)
  {
  }

  lemma SweepStep(w: World, t: Writer)
    requires t in w.tabs && w.tabs[t].phase.Published?
    ensures Do(w, t, Sweep) == w.(tabs := w.tabs[t := w.tabs[t].(phase := Open)],
                                  records := if w.tabs[t].previous.Some? then w.records - {w.tabs[t].previous.value} else w.records)
  {
  }

  lemma StoreStep(w: World, t: Writer, unused: Revision)
    requires t in w.tabs && w.tabs[t].phase.Writing? && unused !in w.authors
    ensures var value := Sealed(w.tabs[t].phase.draft, unused);
            Do(w, t, Store(unused)) == w.(tabs := w.tabs[t := w.tabs[t].(phase := Open, value := value)], records := w.records[t := value],
                                          authors := w.authors[unused := t], latest := Some(value))
  {
  }

  lemma WriteSteps(w: World, t: Writer, draft: string, unused: Revision)
    requires t in w.tabs && w.tabs[t].phase.Open? && w.owner == Some(t) && |draft| <= MAX_DRAFT && draft != w.tabs[t].value.draft && unused !in w.authors
    ensures Do(w, t, Check(draft)) == w.(tabs := w.tabs[t := w.tabs[t].(phase := Writing(draft))])
    ensures var value := Sealed(draft, unused);
            Do(Do(w, t, Check(draft)), t, Store(unused))
            == w.(tabs := w.tabs[t := w.tabs[t].(phase := Open, value := value)], records := w.records[t := value],
                  authors := w.authors[unused := t], latest := Some(value))
  {
    var checked := w.(tabs := w.tabs[t := w.tabs[t].(phase := Writing(draft))]);
    assert Do(w, t, Check(draft)) == checked;
    var value := Sealed(draft, unused);
    assert checked.tabs[t := w.tabs[t].(phase := Open, value := value)] == w.tabs[t := w.tabs[t].(phase := Open, value := value)];
  }

  /** The storage that the tabs share; the machine's world is kept beside it. */
  class Storage {
    var owner: Option<Writer>
    var records: map<Writer, Sealed>
    ghost var world: World

    ghost predicate Valid()
      reads this
    {
      Inv(world) && owner == world.owner && records == world.records
    }

    constructor ()
      ensures Valid() && Start(world)
    {
      owner, records, world := None, map[], World(None, map[], map[], {}, map[], None);
    }

    /** The storage operation that the program makes is the machine's. */
    ghost method Step(t: Writer, act: Act)
      requires Inv(world) && owner == Do(world, t, act).owner && records == Do(world, t, act).records
      modifies this`world
      ensures Valid() && world == Do(old(world), t, act)
    {
      StepKeepsInv(world, t, act);
      world := Do(world, t, act);
      hide Inv, Do;
    }
  }

  class DraftCheckpoint {
    const storage: Storage
    const writer: Writer
    var value: string
    var revision: Revision
    var disposed: bool

    ghost predicate Valid()
      reads this, storage
    {
      && storage.Valid() && writer in storage.world.tabs
      && (!disposed ==> storage.world.tabs[writer].phase.Open? && storage.world.tabs[writer].value == Sealed(value, revision))
    }

    constructor (storage: Storage, writer: Writer, taken: Sealed)
      requires storage.Valid() && writer in storage.world.tabs
      requires storage.world.tabs[writer].phase.Open? && storage.world.tabs[writer].value == taken
      ensures Valid() && this.storage == storage && this.writer == writer && value == taken.draft && revision == taken.revision && !disposed
    {
      this.storage, this.writer, value, revision, disposed := storage, writer, taken.draft, taken.revision, false;
      new;
      hide Inv;
    }

    /** Seals the draft for this writer and moves on to a new revision; a tab that is no longer the
        owner is refused, and changes nothing. */
    method Write(draft: string, unused: Revision) returns (accepted: bool)
      requires Valid() && unused !in storage.world.authors
      modifies this, storage
      ensures Valid() && storage.owner == old(storage.owner)
      ensures accepted == (!old(disposed) && old(storage.owner) == Some(writer) && |draft| <= MAX_DRAFT)
      ensures !accepted ==> storage.records == old(storage.records) && value == old(value)
      ensures accepted ==> value == draft && Current(storage.world) == Some(Sealed(draft, revision))
    {
      if disposed || storage.owner != Some(writer) {
        return false;
      }
      if |draft| > MAX_DRAFT {
        return false;
      }
      OwnerShowsItsValue(storage.world, writer);
      if draft == value {
        return true;
      }
      hide Inv, Do;
      WriteSteps(storage.world, writer, draft, unused);
      storage.Step(writer, Check(draft));
      storage.records := storage.records[writer := Sealed(draft, unused)];
      storage.Step(writer, Store(unused));
      value, revision := draft, unused;
      return true;
    }

    method Dispose()
      requires Valid()
      modifies this, storage
      ensures Valid() && disposed && storage.records == old(storage.records) && storage.owner == old(storage.owner)
    {
      hide Inv;
      storage.Step(writer, Die);
      disposed, value := true, "";
    }
  }

  lemma OwnerShowsItsValue(w: World, t: Writer)
    requires Inv(w) && t in w.tabs && w.tabs[t].phase.Open? && w.owner == Some(t)
    ensures Current(w) == Some(w.tabs[t].value)
  {
    assert TabInv(w, t, w.tabs[t]);
  }

  lemma OwnerHasRecord(w: World)
    requires Inv(w)
    ensures w.owner.Some? ==> w.owner.value in w.records
  {
  }

  /** Opening: the replacement is complete before it is published, and only then is the record of
      the superseded owner removed. */
  method OpenDraftCheckpoint(storage: Storage, writer: Writer, fallback: string, committed: Option<Revision>, reset: bool, unused: Revision)
      returns (checkpoint: DraftCheckpoint?)
    requires storage.Valid() && writer !in storage.world.tabs && unused !in storage.world.authors
    modifies storage
    ensures storage.Valid() && checkpoint != null && fresh(checkpoint) && checkpoint.Valid() && checkpoint.storage == storage
    ensures var expected := Reopened(old(storage.world), fallback, committed, reset, unused);
            && checkpoint.value == expected.draft && checkpoint.revision == expected.revision && checkpoint.writer == writer && !checkpoint.disposed
            && storage.owner == Some(writer) && Current(storage.world) == Some(expected)
  {
    OwnerHasRecord(storage.world);
    hide Inv, Do;
    var previous := storage.owner;
    ClaimStep(storage.world, writer);
    storage.Step(writer, Claim);
    var taken := Sealed(fallback, unused);
    if previous.Some? && !reset {
      if previous.value !in storage.records {
        return null;
      }
      var found := storage.records[previous.value];
      taken := if committed == Some(found.revision) then Sealed("", unused) else found;
    }
    LoadStep(storage.world, writer, fallback, committed, reset, unused);
    storage.Step(writer, Load(fallback, committed, reset, unused));
    Replace(storage, writer, previous, taken);
    checkpoint := new DraftCheckpoint(storage, writer, taken);
    OwnerShowsItsValue(storage.world, writer);
  }

  method Replace(storage: Storage, writer: Writer, previous: Option<Writer>, taken: Sealed)
    requires storage.Valid() && writer in storage.world.tabs && storage.world.tabs[writer].phase.Loaded?
    requires storage.world.tabs[writer].previous == previous && storage.world.tabs[writer].value == taken
    modifies storage
    ensures storage.Valid() && storage.owner == Some(writer) && writer in storage.world.tabs
    ensures storage.world.tabs[writer].phase.Open? && storage.world.tabs[writer].value == taken
  {
    hide Inv, Do, Knows;
    PrepareStep(storage.world, writer);
    storage.records := storage.records[writer := taken];
    storage.Step(writer, Prepare);
    PublishStep(storage.world, writer);
    storage.owner := Some(writer);
    storage.Step(writer, Publish);
    SweepStep(storage.world, writer);
    if previous.Some? {
      storage.records := storage.records - {previous.value};
    }
    storage.Step(writer, Sweep);
  }

  // -------------------------------------------------------------- a lost draft

  /** One tab opens on an empty storage. */
  lemma FirstTab(w: World, fallback: string) returns (run: seq<(Writer, Act)>)
    requires Start(w)
    ensures var value := Sealed(fallback, 1);
            Run(w, run) == World(Some(1), map[1 := value], map[1 := Tab(Open, None, None, false, value)], {1}, map[1 := 1], Some(value))
  {
    hide Run, CarefulRun, Do;
    NoRun(w);
    ClaimStep(w, 1);
    run := Extended(w, [], 1, Claim);
    LoadStep(Run(w, run), 1, fallback, None, false, 1);
    run := Extended(w, run, 1, Load(fallback, None, false, 1));
    PrepareStep(Run(w, run), 1);
    run := Extended(w, run, 1, Prepare);
    PublishStep(Run(w, run), 1);
    run := Extended(w, run, 1, Publish);
    SweepStep(Run(w, run), 1);
    run := Extended(w, run, 1, Sweep);
  }

  /** Two tabs suffice to lose an accepted draft: the second reads the record, the first accepts a
      draft, and then the second publishes what it has read. */
  lemma DraftCanBeLost(w: World, fallback: string, draft: string) returns (run: seq<(Writer, Act)>)
    requires Start(w) && 0 < |draft| <= MAX_DRAFT && draft != fallback
    ensures Run(w, run).latest == Some(Sealed(draft, 3)) && Current(Run(w, run)) == Some(Sealed(fallback, 1))
  {
    hide Run, CarefulRun, Do;
    run := FirstTab(w, fallback);
    ClaimStep(Run(w, run), 2);
    run := Extended(w, run, 2, Claim);
    LoadStep(Run(w, run), 2, fallback, None, false, 2);
    run := Extended(w, run, 2, Load(fallback, None, false, 2));
    WriteSteps(Run(w, run), 1, draft, 3);
    run := Extended(w, run, 1, Check(draft));
    run := Extended(w, run, 1, Store(3));
    PrepareStep(Run(w, run), 2);
    run := Extended(w, run, 2, Prepare);
    PublishStep(Run(w, run), 2);
    run := Extended(w, run, 2, Publish);
  }

  /** The other way: the first tab has checked that it is the owner, the second takes over, and then
      the first accepts its draft, which nobody will read. */
  lemma LateDraftIsLost(w: World, fallback: string, draft: string) returns (run: seq<(Writer, Act)>)
    requires Start(w) && 0 < |draft| <= MAX_DRAFT && draft != fallback
    ensures Run(w, run).latest == Some(Sealed(draft, 3)) && Current(Run(w, run)) == Some(Sealed(fallback, 1))
  {
    hide Run, CarefulRun, Do;
    run := FirstTab(w, fallback);
    WriteSteps(Run(w, run), 1, draft, 3);
    run := Extended(w, run, 1, Check(draft));
    ClaimStep(Run(w, run), 2);
    run := Extended(w, run, 2, Claim);
    LoadStep(Run(w, run), 2, fallback, None, false, 2);
    run := Extended(w, run, 2, Load(fallback, None, false, 2));
    PrepareStep(Run(w, run), 2);
    run := Extended(w, run, 2, Prepare);
    PublishStep(Run(w, run), 2);
    run := Extended(w, run, 2, Publish);
    StoreStep(Run(w, run), 1, 3);
    run := Extended(w, run, 1, Store(3));
  }

  lemma Extended(w: World, run: seq<(Writer, Act)>, t: Writer, act: Act) returns (longer: seq<(Writer, Act)>)
    ensures Run(w, longer) == Do(Run(w, run), t, act)
  {
    RunStep(w, run, t, act);
    longer := run + [(t, act)];
  }

  lemma NoRun(w: World)
    ensures Run(w, []) == w
  {
  }
}
