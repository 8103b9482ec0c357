/** Replacing a Steam installation: bundles are moved aside, moved in and moved back, and any
    step may fail or be the last (PopSiliconInstaller/Sources/SteamReplacementRunner.swift). */
module SteamReplacement {
  /** The app location, its backup, and the two temporary names beside it. */
  datatype Place = Target | Backup | Temporary | Previous

  /** Valve's bundle, an installed replacement, or the remains of something half built or half removed. */
  datatype Bundle = Original | Install(id: nat) | Scrap

  type Layout = map<Place, Bundle>

  datatype Build = Failed(leftover: bool) | Succeeded(id: nat)
  datatype Removal = Removed | Kept | Half

  /** How the outside world answers each step of one run. */
  datatype World = World(
    build: Build,
    compatible: bool,
    movesAside: bool,
    movesIn: bool,
    movesBack: bool,
    removesPrevious: Removal,
    removesTemporary: Removal)

  predicate CanMove(l: Layout, from: Place, to: Place) {
    from in l && to !in l
  }

  function Moved(l: Layout, from: Place, to: Place): Layout
    requires CanMove(l, from, to)
  {
    (l - {from})[to := l[from]]
  }

  function AfterRemoval(l: Layout, place: Place, outcome: Removal): Layout
  {
    match outcome
    case Removed => l - {place}
    case Kept => l
    case Half => if place in l then l[place := Scrap] else l
  }

  predicate Replaced(l: Layout) {
    Target in l && l[Target].Install?
  }

  /** A run does not start over an unrelated backup or over leftovers. */
  predicate Refuses(l: Layout) {
    (!Replaced(l) && Backup in l) || Temporary in l || Previous in l
  }

  /** There are no leftovers beside the target, and no backup other than a replaced bundle's. */
  predicate Starts(l: Layout)
  {
    Temporary !in l && Previous !in l && (Backup in l ==> Target in l && l[Target] != Original && l[Target] != Scrap)
  }

  lemma StartsUnlessRefused(l: Layout)
    ensures Starts(l) <==> !Refuses(l)
  {
  }

  function Aside(l: Layout): Place {
    if Replaced(l) then Previous else Backup
  }

  /** The bundles, and every state the disk has been in. */
  class Disk {
    var layout: Layout
    ghost var history: seq<Layout>

    ghost predicate Recorded()
      reads this
    {
      history != [] && history[|history| - 1] == layout
    }

    constructor (layout: Layout)
      ensures this.layout == layout && history == [layout]
    {
      this.layout, history := layout, [layout];
    }

    /** moveItem: a rename that never replaces anything. */
    method Move(from: Place, to: Place, works: bool) returns (ok: bool)
      modifies this
      ensures ok <==> works && CanMove(old(layout), from, to)
      ensures layout == if ok then Moved(old(layout), from, to) else old(layout)
      ensures history == old(history) + if ok then [layout] else []
    {
      if !works || from !in layout || to in layout {
        return false;
      }
      layout := (layout - {from})[to := layout[from]];
      history := history + [layout];
      ok := true;
    }

    /** removeItem, which may stop half way. */
    method Remove(place: Place, outcome: Removal)
      modifies this
      ensures layout == AfterRemoval(old(layout), place, outcome) && history == old(history) + [layout]
    {
      match outcome {
        case Removed => layout := layout - {place};
        case Kept =>
        case Half => if place in layout { layout := layout[place := Scrap]; }
      }
      history := history + [layout];
    }

    /** BuildRunner.run: something half built first, then the result. */
    method BuildInto(build: Build)
      requires Temporary !in layout
      modifies this
      ensures layout == AfterBuild(old(layout), build)
      ensures history == old(history) + [old(layout)[Temporary := Scrap], layout]
    {
      layout := layout[Temporary := Scrap];
      history := history + [layout];
      match build {
        case Failed(leftover) => if !leftover { layout := layout - {Temporary}; }
        case Succeeded(id) => layout := layout[Temporary := Install(id)];
      }
      history := history + [layout];
    }

    /** One run, as far as it gets by itself. */
    method Run(w: World) returns (ok: bool)
      requires Recorded()
      modifies this
      ensures Recorded() && |history| >= |old(history)| && history[..|old(history)|] == old(history)
      ensures history == old(history) + Steps(old(layout), w)
      ensures ok <==> Succeeds(old(layout), w)
      ensures Starts(old(layout)) <==> history != old(history)
      ensures ok <==>
                && Starts(old(layout)) && Target in old(layout)
                && w.build.Succeeded? && w.compatible && w.movesAside && w.movesIn
      ensures ok ==> layout[Target] == Install(w.build.id) && Temporary !in layout
    {
      ghost var start := layout;
      StartsUnlessRefused(layout);
      if Refuses(layout) {
        return false;
      }
      BuildInto(w.build);
      if w.build.Failed? {
        return false;
      }
      ok := Replace(w);
    }

    /** The bundles change places, if the new one can be signed for Steam. */
    method Replace(w: World) returns (ok: bool)
      requires Recorded() && Temporary in layout && Aside(layout) !in layout
      modifies this
      ensures Recorded() && history == old(history) + MovingAside(old(layout), w)
      ensures ok <==> w.compatible && w.movesAside && Target in old(layout) && w.movesIn
      ensures ok ==> Target in layout && layout[Target] == old(layout)[Temporary] && Temporary !in layout
    {
      ok := w.compatible;
      if ok {
        var aside := Aside(layout);
        ok := Move(Target, aside, w.movesAside);
        if ok {
          ok := MoveIn(aside, w);
        }
      }
      if !ok {
        Remove(Temporary, w.removesTemporary);
      }
    }

    /** The new bundle goes in, or the old one back. */
    method MoveIn(aside: Place, w: World) returns (ok: bool)
      requires Recorded() && Temporary in layout && Target !in layout && aside in layout && aside != Temporary
      modifies this
      ensures Recorded() && (ok <==> w.movesIn)
      ensures history == old(history) + MovingIn(old(layout), aside, w)[..if ok then |MovingIn(old(layout), aside, w)|
              else if w.movesBack then 1 else 0]
      ensures ok ==> Target in layout && layout[Target] == old(layout)[Temporary] && Temporary !in layout
      ensures !ok ==> layout == if w.movesBack then Moved(old(layout), aside, Target) else old(layout)
    {
      ok := Move(Temporary, Target, w.movesIn);
      if !ok {
        var back := Move(aside, Target, w.movesBack);
      } else if aside == Previous {
        Remove(Previous, w.removesPrevious);
      }
    }
  }

  function AfterBuild(l: Layout, build: Build): Layout
  {
    match build
    case Failed(leftover) => if leftover then l[Temporary := Scrap] else l[Temporary := Scrap] - {Temporary}
    case Succeeded(id) => l[Temporary := Install(id)]
  }

  // ---------------------------------------------------------------- the states of a run

  predicate Succeeds(l: Layout, w: World)
  {
    !Refuses(l) && w.build.Succeeded? && w.compatible && w.movesAside && Target in l && w.movesIn
  }

  /** Failing after the build: what was built is removed. */
  function GivingUp(l: Layout, w: World): seq<Layout> {
    [AfterRemoval(l, Temporary, w.removesTemporary)]
  }

  function MovingIn(l: Layout, aside: Place, w: World): seq<Layout>
    requires Temporary in l && Target !in l && aside in l
  {
    if w.movesIn then
      var done := Moved(l, Temporary, Target);
      [done] + if aside == Previous then [AfterRemoval(done, Previous, w.removesPrevious)] else []
    else if w.movesBack then [Moved(l, aside, Target)] + GivingUp(Moved(l, aside, Target), w)
    else GivingUp(l, w)
  }

  function MovingAside(l: Layout, w: World): seq<Layout>
    requires Temporary in l && Aside(l) !in l
  {
    if w.compatible && w.movesAside && Target in l then
      var apart := Moved(l, Target, Aside(l));
      [apart] + MovingIn(apart, Aside(l), w)
    else GivingUp(l, w)
  }

  /** Every state the disk passes through after `l`. */
  function Steps(l: Layout, w: World): seq<Layout>
  {
    if Refuses(l) then []
    else
      [l[Temporary := Scrap], AfterBuild(l, w.build)] +
      if w.build.Failed? then [] else MovingAside(AfterBuild(l, w.build), w)
  }

  // ---------------------------------------------------------------- what survives

  /** Valve's bundle is where it belongs or in the backup, and nowhere else. */
  predicate KeepsOriginal(l: Layout) {
    && ((Target in l && l[Target] == Original) || (Backup in l && l[Backup] == Original))
    && (Temporary in l ==> l[Temporary] != Original) && (Previous in l ==> l[Previous] != Original)
  }

  predicate KeepsBackup(l: Layout, l': Layout) {
    Backup in l ==> Backup in l' && l'[Backup] == l[Backup]
  }

  /** The install that was there is still there or set aside, or its successor is in place. */
  predicate KeepsInstall(l: Layout, l': Layout, w: World)
  {
    Replaced(l) ==>
      || (Target in l' && l'[Target] == l[Target])
      || (Previous in l' && l'[Previous] == l[Target])
      || (w.build.Succeeded? && Target in l' && l'[Target] == Install(w.build.id))
  }

  ghost predicate Safe(l: Layout, l': Layout, w: World) {
    (KeepsOriginal(l) ==> KeepsOriginal(l')) && KeepsBackup(l, l') && KeepsInstall(l, l', w)
  }

  ghost predicate AllSafe(l: Layout, states: seq<Layout>, w: World) {
    forall k :: 0 <= k < |states| ==> Safe(l, states[k], w)
  }

  /** After the build: the target and what is beside it have not been touched. */
  predicate Built(l: Layout, l1: Layout, w: World)
  {
    && !Refuses(l) && w.build.Succeeded? && l1 == l[Temporary := Install(w.build.id)]
  }

  lemma MovingInSafe(l: Layout, l1: Layout, w: World)
    requires Built(l, l1, w) && Target in l
    ensures AllSafe(l, MovingIn(Moved(l1, Target, Aside(l1)), Aside(l1), w), w)
  {
  }

  lemma MovingAsideSafe(l: Layout, l1: Layout, w: World)
    requires Built(l, l1, w)
    ensures AllSafe(l, MovingAside(l1, w), w)
  {
    if Target in l {
      MovingInSafe(l, l1, w);
    }
    hide MovingIn;
  }

  /** Wherever a run is cut short, whatever failed before. */
  lemma EveryStepSafe(l: Layout, w: World)
    ensures AllSafe(l, Steps(l, w), w)
  {
    if !Refuses(l) && w.build.Succeeded? {
      MovingAsideSafe(l, AfterBuild(l, w.build), w);
    }
    hide MovingAside;
  }

  /** A run and the number of its steps that are carried out. */
  datatype Attempt = Attempt(world: World, steps: nat)

  function AfterAttempt(l: Layout, a: Attempt): Layout
  {
    var states := Steps(l, a.world);
    var n := if a.steps < |states| then a.steps else |states|;
    if n == 0 then l else states[n - 1]
  }

  function AfterAttempts(l: Layout, attempts: seq<Attempt>): Layout
    decreases |attempts|
  {
    if attempts == [] then l else AfterAttempts(AfterAttempt(l, attempts[0]), attempts[1..])
  }

  /** Over any number of runs, each failing or stopped anywhere: Valve's bundle is at the target or
      in the backup, and a backup stays what it is. */
  lemma {:induction false} OriginalSurvives(l: Layout, attempts: seq<Attempt>)
    ensures KeepsBackup(l, AfterAttempts(l, attempts))
    ensures KeepsOriginal(l) ==> KeepsOriginal(AfterAttempts(l, attempts))
    decreases |attempts|
  {
    hide Steps;
    if attempts != [] {
      EveryStepSafe(l, attempts[0].world);
      OriginalSurvives(AfterAttempt(l, attempts[0]), attempts[1..]);
    }
  }

  // ---------------------------------------------------------------- replacements over many runs

  predicate HasInstall(l: Layout) {
    (Target in l && l[Target].Install?) || (Previous in l && l[Previous].Install?)
  }

  lemma AttemptKeepsInstall(l: Layout, a: Attempt)
    requires HasInstall(l)
    ensures HasInstall(AfterAttempt(l, a))
  {
    EveryStepSafe(l, a.world);
    if Refuses(l) {
      StaysPut(l, a);
    }
    hide Steps;
  }

  lemma StaysPut(l: Layout, a: Attempt)
    requires Refuses(l)
    ensures Steps(l, a.world) == [] && AfterAttempt(l, a) == l
  {
  }

  /** Once a replacement is installed, there is always one, in place or set aside. */
  lemma {:induction false} InstallSurvives(l: Layout, attempts: seq<Attempt>)
    requires HasInstall(l)
    ensures HasInstall(AfterAttempts(l, attempts))
    decreases |attempts|
  {
    hide AfterAttempt, HasInstall;
    if attempts != [] {
      AttemptKeepsInstall(l, attempts[0]);
      InstallSurvives(AfterAttempt(l, attempts[0]), attempts[1..]);
    }
  }

  /** Leftovers of a run that was cut short are never touched by later runs. */
  lemma {:induction false} LeftoversStay(l: Layout, attempts: seq<Attempt>)
    requires Refuses(l)
    ensures AfterAttempts(l, attempts) == l
    decreases |attempts|
  {
    hide AfterAttempt, Refuses;
    if attempts != [] {
      StaysPut(l, attempts[0]);
      LeftoversStay(l, attempts[1..]);
    }
  }

  function Final(l: Layout, w: World): Layout {
    AfterAttempt(l, Attempt(w, |Steps(l, w)|))
  }

  /** A run that succeeds puts the new install in place and, the first time, keeps the original. */
  lemma SuccessReplaces(l: Layout, w: World)
    requires Succeeds(l, w)
    ensures var f := Final(l, w);
            && Target in f && f[Target] == Install(w.build.id) && Temporary !in f
            && (if Replaced(l) then Backup in f <==> Backup in l else Backup in f && f[Backup] == l[Target])
            && (Previous in f ==> Replaced(l) && w.removesPrevious != Removed)
  {
    var l1 := AfterBuild(l, w.build);
    var apart := Moved(l1, Target, Aside(l1));
    assert Steps(l, w) == [l[Temporary := Scrap], l1] + ([apart] + MovingIn(apart, Aside(l1), w));
  }

  /** A run that fails leaves everything as it found it exactly when the build left nothing, the
      built bundle could be removed, and what had been moved aside could be moved back. */
  lemma FailureRollsBack(l: Layout, w: World)
    requires !Refuses(l) && !Succeeds(l, w)
    ensures Final(l, w) == l <==>
            if w.build.Failed? then !w.build.leftover
            else w.removesTemporary == Removed && (w.compatible && w.movesAside && Target in l ==> w.movesBack)
  {
    var l1 := AfterBuild(l, w.build);
    if w.build.Failed? {
      assert Steps(l, w) == [l[Temporary := Scrap], l1];
    } else if w.compatible && w.movesAside && Target in l {
      var apart := Moved(l1, Target, Aside(l1));
      assert Steps(l, w) == [l[Temporary := Scrap], l1] + ([apart] + MovingIn(apart, Aside(l1), w));
      if w.movesBack {
        assert Moved(apart, Aside(l1), Target) == l1;
        assert Final(l, w) == AfterRemoval(l1, Temporary, w.removesTemporary);
      } else {
        assert Final(l, w) == AfterRemoval(apart, Temporary, w.removesTemporary);
        assert Target !in Final(l, w);
      }
    } else {
      assert Steps(l, w) == [l[Temporary := Scrap], l1] + GivingUp(l1, w);
    }
  }
}
