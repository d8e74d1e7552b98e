/** Reclaim's protocol over file names: how a compacted container reaches the store's name, under different
    guarantees for replacing a file that is open and for unlinking one. */
module Reclaims {
  import opened Bytes

  /** The store and the names reclaim uses beside it. */
  datatype Name = Store | Staging | Anchor | CandidateTmp | Candidate

  /** What a file holds: the store as it was, the compacted container, that container with a later commit, or
      something not (yet) whole. */
  datatype Content = Original | Compacted | Newer | Partial

  /** A file by identity: the live store, the fresh container, its copy, and debris of earlier runs. */
  type File = nat

  const OLD_FILE: File := 0
  const FRESH_FILE: File := 1
  const COPY_FILE: File := 2

  type Namespace = map<Name, File>

  /** `Atomic` and `Lagged` differ in what a replace over an open file promises; under `Lagged` an unlinked
      name may or may not come back. `Sticky` is `Lagged` with unlinks that never reach the disk: a deleted name
      is back after every power loss, until a later rename or publication takes it. */
  datatype Durability = Atomic | Lagged | Sticky

  /** The names a process sees, every namespace a power loss may leave, the names created and not yet
      published, and what each file holds after a power loss. */
  datatype Fs = Fs(seen: Namespace, survives: iset<Namespace>, unpublished: set<Name>, holds: map<File, Content>)

  datatype Op =
    | Create(name: Name, file: File)
    | SyncFile(file: File, content: Content)
    | SyncDir
    | Rename(source: Name, target: Name)          // write-through, target absent
    | RenameOver(source: Name, target: Name)      // replaces a target that is open
    | Unlink(name: Name)

  // ---- namespace edits ------------------------------------------------------------------

  function Moved(ns: Namespace, source: Name, target: Name, file: File): Namespace {
    (ns - {source})[target := file]
  }

  function Published(ns: Namespace, seen: Namespace, names: set<Name>): Namespace {
    ns + (map n | n in names && n in seen :: seen[n])
  }

  /** The names a process sees after an operation. */
  function Seen(op: Op, seen: Namespace): Namespace {
    match op
    case Create(n, f) => seen[n := f]
    case SyncFile(_, _) => seen
    case SyncDir => seen
    case Rename(a, b) => if a in seen then Moved(seen, a, b, seen[a]) else seen
    case RenameOver(a, b) => if a in seen then Moved(seen, a, b, seen[a]) else seen
    case Unlink(n) => seen - {n}
  }

  /** Under `Atomic`, names reach the disk in order and whole: a power loss leaves some namespace seen since
      the last directory sync. */
  ghost function SurvivesAtomic(op: Op, fs: Fs): iset<Namespace> {
    if op.SyncDir? then iset{fs.seen} else fs.survives + iset{Seen(op, fs.seen)}
  }

  /** Under `Lagged` there is no directory sync. A created name may or may not be there until published; a
      write-through rename is durable once it returns; a replace over an open file may have left the old name,
      the new one, or neither, from then on; an unlinked name may come back. */
  ghost function SurvivesLagged(op: Op, fs: Fs): iset<Namespace> {
    match op
    case Create(n, f) => fs.survives + (iset ns | ns in fs.survives :: ns[n := f])
    case SyncFile(_, _) => fs.survives
    case SyncDir => iset ns | ns in fs.survives :: Published(ns, fs.seen, fs.unpublished)
    case Rename(a, b) =>
      if a in fs.seen then iset ns | ns in fs.survives :: Moved(ns, a, b, fs.seen[a]) else fs.survives
    case RenameOver(a, b) =>
      if a in fs.seen then
        (iset ns | ns in fs.survives :: ns[a := fs.seen[a]])
        + (iset ns | ns in fs.survives :: Moved(ns, a, b, fs.seen[a]))
        + (iset ns | ns in fs.survives :: ns - {a} - {b})
      else fs.survives
    case Unlink(n) => fs.survives + (iset ns | ns in fs.survives :: ns - {n})
  }

  ghost function Apply(d: Durability, op: Op, fs: Fs): Fs {
    Fs(Seen(op, fs.seen),
       if d.Atomic? then SurvivesAtomic(op, fs)
       else if d.Sticky? && op.Unlink? then fs.survives
       else SurvivesLagged(op, fs),
       (match op
        case Create(n, _) => fs.unpublished + {n}
        case SyncDir => {}
        case Rename(a, _) => fs.unpublished - {a}
        case RenameOver(a, _) => fs.unpublished - {a}
        case Unlink(n) => fs.unpublished - {n}
        case SyncFile(_, _) => fs.unpublished),
       match op
       case Create(_, f) => fs.holds[f := Partial]
       case SyncFile(f, c) => fs.holds[f := c]
       case _ => fs.holds)
  }

  /** What a power loss during an operation may leave: what survived before it, what survives after it, and
      for a rename on a platform without atomic replacement, neither name. */
  ghost function Crashes(d: Durability, op: Op, fs: Fs): iset<Namespace> {
    fs.survives + Apply(d, op, fs).survives
    + (if !d.Atomic? && (op.Rename? || op.RenameOver?)
       then iset ns | ns in fs.survives :: ns - {op.source} - {op.target} else iset{})
  }

  ghost function After(d: Durability, ops: seq<Op>, fs: Fs): Fs {
    if |ops| == 0 then fs else Apply(d, ops[|ops| - 1], After(d, ops[..|ops| - 1], fs))
  }

  /** Every namespace a power loss may leave while running operation `k`, or once all have run. */
  ghost predicate Reachable(d: Durability, ops: seq<Op>, fs: Fs, k: nat, ns: Namespace, holds: map<File, Content>)
    requires k <= |ops|
  {
    var before := After(d, ops[..k], fs);
    && holds == before.holds
    && (if k == |ops| then ns in before.survives else ns in Crashes(d, ops[k], before))
  }

  // ---- what must survive ----------------------------------------------------------------

  predicate Whole(ns: Namespace, holds: map<File, Content>, n: Name) {
    n in ns && ns[n] in holds && holds[ns[n]] != Partial
  }

  /** A whole store, or no store and a whole compacted anchor: what a writer open accepts or recovers. */
  predicate Safe(ns: Namespace, holds: map<File, Content>) {
    || Whole(ns, holds, Store)
    || (Store !in ns && Anchor in ns && ns[Anchor] in holds && holds[ns[Anchor]] == Compacted)
  }

  /** A settled store: present and whole in every namespace that may survive. Debris may lie beside it, but
      not under the identities this run is about to create. */
  ghost predicate Settled(fs: Fs) {
    && fs.seen in fs.survives
    && (forall ns :: ns in fs.survives ==> Store in ns && ns[Store] == OLD_FILE)
    && OLD_FILE in fs.holds && fs.holds[OLD_FILE] == Original
    && FRESH_FILE !in fs.holds && COPY_FILE !in fs.holds
    && Store !in fs.unpublished && Anchor !in fs.unpublished
  }

  // ---- the two protocols ----------------------------------------------------------------

  const CLEAN: seq<Op> := [Unlink(Staging), Unlink(Anchor), Unlink(CandidateTmp), Unlink(Candidate)]

  /** The fresh container, created, filled, committed and verified under its staging name. */
  const BUILD: seq<Op> := [Create(Staging, FRESH_FILE), SyncDir, SyncFile(FRESH_FILE, Compacted)]

  const RENAME_PROTOCOL: seq<Op> := CLEAN + BUILD + [RenameOver(Staging, Store), SyncDir]

  const ANCHOR_PROTOCOL: seq<Op> := CLEAN + BUILD + [
    Rename(Staging, Anchor), SyncDir,
    Create(CandidateTmp, COPY_FILE), SyncFile(COPY_FILE, Compacted), SyncDir,
    Rename(CandidateTmp, Candidate), SyncDir,
    RenameOver(Candidate, Store), SyncDir,
    Unlink(Anchor), SyncDir]

  /** Where each protocol stands: the replace of the store, and the unlink of the anchor. */
  const RENAME_REPLACE: nat := 7
  const ANCHOR_REPLACE: nat := 14
  const ANCHOR_UNLINK: nat := 16

  lemma ProtocolShape()
    ensures |RENAME_PROTOCOL| == 9 && RENAME_PROTOCOL[RENAME_REPLACE] == RenameOver(Staging, Store)
    ensures |ANCHOR_PROTOCOL| == 18 && ANCHOR_PROTOCOL[ANCHOR_REPLACE] == RenameOver(Candidate, Store)
    ensures ANCHOR_PROTOCOL[ANCHOR_UNLINK] == Unlink(Anchor)
  {
  }

  // ---- what one operation keeps ---------------------------------------------------------

  /** In a namespace: which files the store may be, whether it may be missing, and whether the anchor is surely
      the fresh container. */
  datatype Claim = Claim(stores: set<File>, missing: bool, anchored: bool) {
    predicate Of(ns: Namespace) {
      && (Store in ns ==> ns[Store] in stores)
      && (!missing ==> Store in ns)
      && (anchored ==> Anchor in ns && ns[Anchor] == FRESH_FILE)
    }

    ghost predicate Holds(fs: Fs) {
      && Of(fs.seen) && Store !in fs.unpublished && Anchor !in fs.unpublished
      && forall ns :: ns in fs.survives ==> Of(ns)
    }

    /** The operation leaves the store's name alone, and the anchor's too once it matters. */
    predicate Spares(op: Op) {
      match op
      case Create(n, _) => n != Store && n != Anchor
      case Unlink(n) => n != Store && (anchored ==> n != Anchor)
      case Rename(a, b) => a != Store && b != Store && a != Anchor && (anchored ==> b != Anchor)
      case RenameOver(a, b) => false
      case SyncFile(_, _) => true
      case SyncDir => true
    }
  }

  lemma SparedStays(d: Durability, op: Op, fs: Fs, c: Claim)
    requires c.Holds(fs) && c.Spares(op)
    ensures c.Holds(Apply(d, op, fs))
    ensures forall ns :: ns in Crashes(d, op, fs) ==> c.Of(ns)
  {
  }

  /** A replace over the open store: afterwards it is the old file or the new, and possibly missing where
      replacement is not atomic. */
  lemma ReplaceClaims(d: Durability, fs: Fs, c: Claim, source: Name)
    requires c.Holds(fs) && source != Store && source != Anchor && source in fs.seen
    ensures var after := Claim(c.stores + {fs.seen[source]}, c.missing || !d.Atomic?, c.anchored);
            && after.Holds(Apply(d, RenameOver(source, Store), fs))
            && forall ns :: ns in Crashes(d, RenameOver(source, Store), fs) ==> after.Of(ns)
  {
  }

  /** Naming the fresh container as the anchor, then syncing, makes it the anchor everywhere. */
  lemma AnchorClaims(d: Durability, fs: Fs, c: Claim)
    requires c.Holds(fs) && Staging in fs.seen && fs.seen[Staging] == FRESH_FILE && !c.anchored
    ensures var named := Apply(d, Rename(Staging, Anchor), fs);
            c.(anchored := true).Holds(Apply(d, SyncDir, named))
  {
  }

  /** Unlinking the anchor gives up only the anchor. */
  lemma UnanchorClaims(d: Durability, fs: Fs, c: Claim)
    requires c.Holds(fs)
    ensures var after := c.(anchored := false);
            && after.Holds(Apply(d, Unlink(Anchor), fs))
            && forall ns :: ns in Crashes(d, Unlink(Anchor), fs) ==> after.Of(ns)
  {
  }

  lemma AfterNext(d: Durability, ops: seq<Op>, fs: Fs, k: nat)
    requires k < |ops|
    ensures After(d, ops[..k + 1], fs) == Apply(d, ops[k], After(d, ops[..k], fs))
  {
    assert ops[..k + 1][..k] == ops[..k];
  }

  /** `op` is the `k`-th operation of the anchor protocol, spelled out. */
  function AnchorOp(k: nat): Op
    requires k < 18
  {
    if k < 4 then (if k == 0 then Unlink(Staging) else if k == 1 then Unlink(Anchor)
                   else if k == 2 then Unlink(CandidateTmp) else Unlink(Candidate))
    else if k == 4 then Create(Staging, FRESH_FILE)
    else if k == 6 then SyncFile(FRESH_FILE, Compacted)
    else if k == 7 then Rename(Staging, Anchor)
    else if k == 9 then Create(CandidateTmp, COPY_FILE)
    else if k == 10 then SyncFile(COPY_FILE, Compacted)
    else if k == 12 then Rename(CandidateTmp, Candidate)
    else if k == 14 then RenameOver(Candidate, Store)
    else if k == 16 then Unlink(Anchor)
    else SyncDir
  }

  lemma AnchorOps(k: nat)
    requires k < 18
    ensures |ANCHOR_PROTOCOL| == 18 && ANCHOR_PROTOCOL[k] == AnchorOp(k)
  {
  }

  // ---- the anchor protocol --------------------------------------------------------------

  function AnchorClaim(d: Durability, k: nat): Claim {
    if k <= 8 then Claim({OLD_FILE}, false, false)
    else if k <= ANCHOR_REPLACE then Claim({OLD_FILE}, false, true)
    else Claim({OLD_FILE, COPY_FILE}, !d.Atomic?, k <= ANCHOR_UNLINK)
  }

  /** What the names in view and the files behind them are before operation `k`. */
  ghost predicate AnchorFacts(k: nat, fs: Fs) {
    && OLD_FILE in fs.holds && fs.holds[OLD_FILE] == Original
    && (4 < k <= 7 ==> Staging in fs.seen && fs.seen[Staging] == FRESH_FILE)
    && (6 < k ==> FRESH_FILE in fs.holds && fs.holds[FRESH_FILE] == Compacted)
    && (9 < k <= 12 ==> CandidateTmp in fs.seen && fs.seen[CandidateTmp] == COPY_FILE)
    && (10 < k ==> COPY_FILE in fs.holds && fs.holds[COPY_FILE] == Compacted)
    && (12 < k <= 14 ==> Candidate in fs.seen && fs.seen[Candidate] == COPY_FILE)
    && (k == 6 || k == 7 || k == 8 || 12 <= k ==> fs.unpublished == {})
    && (6 <= k ==> fs.unpublished <= {CandidateTmp})
  }

  /** At the rename to the anchor the claim is still the weaker one, but syncing it makes the stronger. */
  ghost predicate AnchorNamed(d: Durability, k: nat, fs: Fs) {
    k == 8 ==> AnchorClaim(d, 9).Holds(Apply(d, SyncDir, fs))
  }

  lemma AnchorFactsStep(d: Durability, fs: Fs, k: nat)
    requires k < 18 && AnchorFacts(k, fs)
    ensures AnchorFacts(k + 1, Apply(d, AnchorOp(k), fs))
  {
    hide SurvivesAtomic, SurvivesLagged;
  }

  lemma AnchorClaimStep(d: Durability, fs: Fs, k: nat)
    requires k < 18 && AnchorFacts(k, fs) && AnchorClaim(d, k).Holds(fs) && AnchorNamed(d, k, fs)
    ensures var next := Apply(d, AnchorOp(k), fs);
            && AnchorClaim(d, k + 1).Holds(next) && AnchorNamed(d, k + 1, next)
            && (k != ANCHOR_REPLACE && k != ANCHOR_UNLINK ==>
                  forall ns :: ns in Crashes(d, AnchorOp(k), fs) ==> AnchorClaim(d, k).Of(ns))
            && (k == ANCHOR_REPLACE || k == ANCHOR_UNLINK ==>
                  forall ns :: ns in Crashes(d, AnchorOp(k), fs) ==> AnchorClaim(d, k + 1).Of(ns))
  {
    hide SurvivesAtomic, SurvivesLagged, Crashes, Apply, Claim.Holds, Claim.Of;
    var c := AnchorClaim(d, k);
    if k == ANCHOR_REPLACE {
      ReplaceClaims(d, fs, c, Candidate);
      assert AnchorClaim(d, k + 1) == Claim(c.stores + {COPY_FILE}, c.missing || !d.Atomic?, c.anchored);
    } else if k == ANCHOR_UNLINK {
      UnanchorClaims(d, fs, c);
    } else {
      SparedStays(d, AnchorOp(k), fs, c);
      if k == 7 { AnchorClaims(d, fs, c); }
    }
  }

  lemma {:induction false} AnchorRun(d: Durability, fs: Fs, k: nat)
    requires Settled(fs) && k <= 18
    ensures |ANCHOR_PROTOCOL| == 18
    ensures var s := After(d, ANCHOR_PROTOCOL[..k], fs);
            AnchorFacts(k, s) && AnchorClaim(d, k).Holds(s) && AnchorNamed(d, k, s)
  {
    ProtocolShape();
    hide ANCHOR_PROTOCOL, Apply, SurvivesAtomic, SurvivesLagged;
    if k == 0 {
      assert ANCHOR_PROTOCOL[..0] == [];
    } else {
      AnchorRun(d, fs, k - 1);
      AfterNext(d, ANCHOR_PROTOCOL, fs, k - 1);
      AnchorOps(k - 1);
      var s := After(d, ANCHOR_PROTOCOL[..k - 1], fs);
      AnchorFactsStep(d, s, k - 1);
      AnchorClaimStep(d, s, k - 1);
    }
  }

  lemma AnchorCrash(d: Durability, fs: Fs, k: nat, ns: Namespace, holds: map<File, Content>)
    requires Settled(fs) && k <= 18 && |ANCHOR_PROTOCOL| == 18 && Reachable(d, ANCHOR_PROTOCOL, fs, k, ns, holds)
    ensures AnchorClaim(d, if k == ANCHOR_REPLACE || k == ANCHOR_UNLINK then k + 1 else k).Of(ns)
    ensures 6 < k ==> FRESH_FILE in holds && holds[FRESH_FILE] == Compacted
    ensures 10 < k ==> COPY_FILE in holds && holds[COPY_FILE] == Compacted
    ensures OLD_FILE in holds && holds[OLD_FILE] == Original
  {
    hide ANCHOR_PROTOCOL, Apply, SurvivesAtomic, SurvivesLagged, Crashes, After;
    AnchorRun(d, fs, k);
    if k < 18 {
      AnchorOps(k);
      AnchorClaimStep(d, After(d, ANCHOR_PROTOCOL[..k], fs), k);
    }
  }

  lemma AfterNothing(d: Durability, fs: Fs)
    ensures After(d, [], fs) == fs
  {
  }

  /** Without atomic replacement, some surviving namespace has lost the store from the replace on, and from
      the unlink on has lost the anchor too. */
  lemma {:induction false} AnchorWitness(fs: Fs, k: nat) returns (ns: Namespace)
    requires Settled(fs) && k <= 18 && |ANCHOR_PROTOCOL| == 18
    ensures ns in After(Lagged, ANCHOR_PROTOCOL[..k], fs).survives
    ensures ANCHOR_REPLACE < k ==> Store !in ns
    ensures ANCHOR_UNLINK < k ==> Anchor !in ns
  {
    hide ANCHOR_PROTOCOL, AnchorClaim, AnchorNamed, Apply, After, SurvivesAtomic, SurvivesLagged;
    if k == 0 {
      assert ANCHOR_PROTOCOL[..0] == [];
      AfterNothing(Lagged, fs);
      ns := fs.seen;
    } else {
      var before := AnchorWitness(fs, k - 1);
      AfterNext(Lagged, ANCHOR_PROTOCOL, fs, k - 1);
      AnchorOps(k - 1);
      AnchorRun(Lagged, fs, k - 1);
      var s := After(Lagged, ANCHOR_PROTOCOL[..k - 1], fs);
      ns := Carried(Lagged, before, AnchorOp(k - 1), s);
      CarriedSurvives(Lagged, before, AnchorOp(k - 1), s);
      assert k - 1 >= 15 ==> s.unpublished == {};
    }
  }

  /** The worst that may have become of a surviving namespace. */
  function Carried(d: Durability, ns: Namespace, op: Op, fs: Fs): Namespace {
    match op
    case Create(_, _) => ns
    case SyncFile(_, _) => ns
    case SyncDir => Published(ns, fs.seen, fs.unpublished)
    case Rename(a, b) => if a in fs.seen then Moved(ns, a, b, fs.seen[a]) else ns
    case RenameOver(a, b) => if a in fs.seen then ns - {a} - {b} else ns
    case Unlink(n) => if d.Sticky? then ns else ns - {n}
  }

  lemma CarriedSurvives(d: Durability, ns: Namespace, op: Op, fs: Fs)
    requires ns in fs.survives && !d.Atomic?
    ensures Carried(d, ns, op, fs) in Apply(d, op, fs).survives
  {
  }

  /** When unlinks never reach the disk, what survives from the anchor's unlink on is what survived before it. */
  lemma StickyTail(fs: Fs, k: nat, ns: Namespace, holds: map<File, Content>)
    requires Settled(fs) && ANCHOR_UNLINK <= k <= 18 && |ANCHOR_PROTOCOL| == 18
    requires Reachable(Sticky, ANCHOR_PROTOCOL, fs, k, ns, holds)
    ensures AnchorClaim(Sticky, ANCHOR_UNLINK).Of(ns)
  {
    hide ANCHOR_PROTOCOL, After, SurvivesAtomic, AnchorClaim, AnchorNamed;
    AnchorRun(Sticky, fs, 16);
    AnchorRun(Sticky, fs, 17);
    AnchorOps(16);
    AnchorOps(17);
    var s16 := After(Sticky, ANCHOR_PROTOCOL[..16], fs);
    var s17 := After(Sticky, ANCHOR_PROTOCOL[..17], fs);
    AfterNext(Sticky, ANCHOR_PROTOCOL, fs, 16);
    AfterNext(Sticky, ANCHOR_PROTOCOL, fs, 17);
    assert s17.survives == s16.survives && s17.unpublished == {};
    forall n | n in s17.survives ensures Published(n, s17.seen, {}) == n { }
    assert ANCHOR_PROTOCOL[..18] == ANCHOR_PROTOCOL;
    assert ns in s16.survives;
  }

  /** The anchor protocol leaves a whole store, or a whole anchor to recover it from, at every point of every
      power loss -- after its return included -- exactly when replacement is atomic, unlinks never reach the
      disk, or the anchor is not yet being unlinked. */
  lemma AnchorSafeExactly(d: Durability, fs: Fs, k: nat)
    requires Settled(fs) && k <= 18
    ensures |ANCHOR_PROTOCOL| == 18
    ensures (forall ns, holds :: Reachable(d, ANCHOR_PROTOCOL, fs, k, ns, holds) ==> Safe(ns, holds))
            <==> !d.Lagged? || k < ANCHOR_UNLINK
  {
    ProtocolShape();
    hide ANCHOR_PROTOCOL, After, Apply, Crashes, Reachable;
    if !d.Lagged? || k < ANCHOR_UNLINK {
      forall ns, holds | Reachable(d, ANCHOR_PROTOCOL, fs, k, ns, holds) ensures Safe(ns, holds) {
        AnchorCrash(d, fs, k, ns, holds);
        if d.Sticky? && k >= ANCHOR_UNLINK { StickyTail(fs, k, ns, holds); }
      }
    } else {
      AnchorLoss(fs, k);
    }
  }

  lemma AnchorLoss(fs: Fs, k: nat)
    requires Settled(fs) && ANCHOR_UNLINK <= k <= 18 && |ANCHOR_PROTOCOL| == 18
    ensures exists ns, holds :: Reachable(Lagged, ANCHOR_PROTOCOL, fs, k, ns, holds) && !Safe(ns, holds)
                                && Store !in ns && Anchor !in ns
  {
    hide ANCHOR_PROTOCOL, After;
    var before := After(Lagged, ANCHOR_PROTOCOL[..k], fs);
    var ns := AnchorWitness(fs, k);
    if k == ANCHOR_UNLINK {
      AnchorOps(k);
      CarriedSurvives(Lagged, ns, Unlink(Anchor), before);
      ns := ns - {Anchor};
    }
    assert Reachable(Lagged, ANCHOR_PROTOCOL, fs, k, ns, before.holds) && !Safe(ns, before.holds);
  }

  // ---- commits after reclaim ------------------------------------------------------------

  /** A later commit, made durable in the file the process has under the store's name. */
  function Committed(holds: map<File, Content>, seen: Namespace): map<File, Content>
    requires Store in seen
  {
    holds[seen[Store] := Newer]
  }

  /** What a writer open finds: the store, or, when there is none, what it recovers from the anchor. */
  function Finds(ns: Namespace, holds: map<File, Content>): Option<Content> {
    if Store in ns then (if ns[Store] in holds then Some(holds[ns[Store]]) else None)
    else if Anchor in ns && ns[Anchor] in holds then Some(holds[ns[Anchor]])
    else None
  }

  /** From the replace on the process has the new file under the store's name. */
  lemma {:induction false} ReplacedInView(d: Durability, fs: Fs, k: nat)
    requires Settled(fs) && ANCHOR_REPLACE < k <= 18
    ensures |ANCHOR_PROTOCOL| == 18
    ensures var s := After(d, ANCHOR_PROTOCOL[..k], fs); Store in s.seen && s.seen[Store] == COPY_FILE
  {
    ProtocolShape();
    hide ANCHOR_PROTOCOL, After, AnchorClaim, AnchorNamed, SurvivesAtomic, SurvivesLagged;
    AnchorRun(d, fs, k - 1);
    AfterNext(d, ANCHOR_PROTOCOL, fs, k - 1);
    AnchorOps(k - 1);
    if k > 15 { ReplacedInView(d, fs, k - 1); }
  }

  /** Without atomic replacement, some surviving namespace still has the old file there. */
  lemma {:induction false} UndoneWitness(d: Durability, fs: Fs, k: nat) returns (ns: Namespace)
    requires Settled(fs) && k <= 18 && |ANCHOR_PROTOCOL| == 18 && !d.Atomic?
    ensures ns in After(d, ANCHOR_PROTOCOL[..k], fs).survives && Store in ns && ns[Store] == OLD_FILE
  {
    hide ANCHOR_PROTOCOL, AnchorNamed, After, SurvivesAtomic;
    if k == 0 {
      assert ANCHOR_PROTOCOL[..0] == [];
      AfterNothing(d, fs);
      ns := fs.seen;
    } else {
      var before := UndoneWitness(d, fs, k - 1);
      AfterNext(d, ANCHOR_PROTOCOL, fs, k - 1);
      AnchorOps(k - 1);
      AnchorRun(d, fs, k - 1);
      var s := After(d, ANCHOR_PROTOCOL[..k - 1], fs);
      ns := Undone(d, before, AnchorOp(k - 1), s);
      UndoneSurvives(d, before, AnchorOp(k - 1), s);
    }
  }

  /** A surviving namespace after an operation, a replace having been undone. */
  function Undone(d: Durability, ns: Namespace, op: Op, fs: Fs): Namespace {
    if op.RenameOver? && op.source in fs.seen then ns[op.source := fs.seen[op.source]] else Carried(d, ns, op, fs)
  }

  lemma UndoneSurvives(d: Durability, ns: Namespace, op: Op, fs: Fs)
    requires ns in fs.survives && !d.Atomic?
    ensures Undone(d, ns, op, fs) in Apply(d, op, fs).survives
  {
    if !(op.RenameOver? && op.source in fs.seen) { CarriedSurvives(d, ns, op, fs); }
  }

  /** When unlinks never reach the disk, some surviving namespace has the anchor alone. */
  lemma {:induction false} AnchorAloneWitness(fs: Fs, k: nat) returns (ns: Namespace)
    requires Settled(fs) && k <= 18 && |ANCHOR_PROTOCOL| == 18
    ensures ns in After(Sticky, ANCHOR_PROTOCOL[..k], fs).survives
    ensures ANCHOR_REPLACE < k ==> Store !in ns && Anchor in ns && ns[Anchor] == FRESH_FILE
  {
    hide ANCHOR_PROTOCOL, AnchorNamed, After, SurvivesAtomic, SurvivesLagged, Apply;
    if k == 0 {
      assert ANCHOR_PROTOCOL[..0] == [];
      AfterNothing(Sticky, fs);
      ns := fs.seen;
    } else {
      var before := AnchorAloneWitness(fs, k - 1);
      AfterNext(Sticky, ANCHOR_PROTOCOL, fs, k - 1);
      AnchorOps(k - 1);
      AnchorRun(Sticky, fs, k - 1);
      var s := After(Sticky, ANCHOR_PROTOCOL[..k - 1], fs);
      ns := Carried(Sticky, before, AnchorOp(k - 1), s);
      CarriedSurvives(Sticky, before, AnchorOp(k - 1), s);
    }
  }

  lemma AtomicSettles(fs: Fs)
    requires Settled(fs)
    ensures |ANCHOR_PROTOCOL| == 18
    ensures var s := After(Atomic, ANCHOR_PROTOCOL[..18], fs); s.survives == iset{s.seen}
  {
    ProtocolShape();
    hide ANCHOR_PROTOCOL, After;
    AfterNext(Atomic, ANCHOR_PROTOCOL, fs, 17);
    AnchorOps(17);
  }

  /** Reclaim followed by a commit: the commit is what a writer open finds after every power loss exactly when
      replacement is atomic. Otherwise the replacement may be undone and the old store found again; and where
      unlinks never reach the disk, the store may be missing and the anchor, older than the commit, recovered in
      its place. */
  lemma CommitAfterReclaimKeptExactly(d: Durability, fs: Fs)
    requires Settled(fs)
    ensures |ANCHOR_PROTOCOL| == 18
    ensures var s := After(d, ANCHOR_PROTOCOL[..18], fs);
      && Store in s.seen
      && ((forall ns :: ns in s.survives ==> Finds(ns, Committed(s.holds, s.seen)) == Some(Newer)) <==> d.Atomic?)
      && (!d.Atomic? ==> exists ns :: ns in s.survives && Finds(ns, Committed(s.holds, s.seen)) == Some(Original))
      && (d.Sticky? ==> exists ns :: ns in s.survives && Finds(ns, Committed(s.holds, s.seen)) == Some(Compacted))
  {
    ProtocolShape();
    hide ANCHOR_PROTOCOL, After, AnchorNamed, AnchorClaim;
    ReplacedInView(d, fs, 18);
    AnchorRun(d, fs, 18);
    var s := After(d, ANCHOR_PROTOCOL[..18], fs);
    if d.Atomic? {
      AtomicSettles(fs);
    } else {
      var undone := UndoneWitness(d, fs, 18);
      assert Finds(undone, Committed(s.holds, s.seen)) == Some(Original);
      if d.Sticky? {
        var alone := AnchorAloneWitness(fs, 18);
        assert Finds(alone, Committed(s.holds, s.seen)) == Some(Compacted);
      }
    }
  }

  // ---- the rename protocol --------------------------------------------------------------

  function RenameOp(k: nat): Op
    requires k < 9
  {
    if k < RENAME_REPLACE then AnchorOp(k)
    else if k == RENAME_REPLACE then RenameOver(Staging, Store)
    else SyncDir
  }

  lemma RenameOps(k: nat)
    requires k < 9
    ensures |RENAME_PROTOCOL| == 9 && RENAME_PROTOCOL[k] == RenameOp(k)
  {
  }

  function RenameClaim(d: Durability, k: nat): Claim {
    if k <= RENAME_REPLACE then Claim({OLD_FILE}, false, false) else Claim({OLD_FILE, FRESH_FILE}, !d.Atomic?, false)
  }

  ghost predicate RenameFacts(k: nat, fs: Fs) {
    && OLD_FILE in fs.holds && fs.holds[OLD_FILE] == Original
    && (4 < k <= 7 ==> Staging in fs.seen && fs.seen[Staging] == FRESH_FILE)
    && (6 < k ==> FRESH_FILE in fs.holds && fs.holds[FRESH_FILE] == Compacted)
    && (1 < k ==> Anchor !in fs.seen && Anchor !in fs.unpublished)
    && (6 <= k ==> fs.unpublished == {})
  }

  lemma RenameStep(d: Durability, fs: Fs, k: nat)
    requires k < 9 && RenameFacts(k, fs) && RenameClaim(d, k).Holds(fs)
    ensures var next := Apply(d, RenameOp(k), fs);
            && RenameFacts(k + 1, next) && RenameClaim(d, k + 1).Holds(next)
            && forall ns :: ns in Crashes(d, RenameOp(k), fs) ==>
                 RenameClaim(d, if k == RENAME_REPLACE then k + 1 else k).Of(ns)
  {
    RenameFactsStep(d, fs, k);
    hide SurvivesAtomic, SurvivesLagged, Crashes, Apply, Claim.Holds, Claim.Of, RenameFacts;
    var c := RenameClaim(d, k);
    if k == RENAME_REPLACE {
      assert Staging in fs.seen && fs.seen[Staging] == FRESH_FILE by { RenameStaged(k, fs); }
      ReplaceClaims(d, fs, c, Staging);
      assert RenameClaim(d, k + 1) == Claim(c.stores + {FRESH_FILE}, c.missing || !d.Atomic?, c.anchored);
    } else {
      SparedStays(d, RenameOp(k), fs, c);
    }
  }

  lemma RenameStaged(k: nat, fs: Fs)
    requires RenameFacts(k, fs) && k == RENAME_REPLACE
    ensures Staging in fs.seen && fs.seen[Staging] == FRESH_FILE
  {
  }

  lemma RenameFactsStep(d: Durability, fs: Fs, k: nat)
    requires k < 9 && RenameFacts(k, fs)
    ensures RenameFacts(k + 1, Apply(d, RenameOp(k), fs))
  {
    hide SurvivesAtomic, SurvivesLagged;
  }

  lemma {:induction false} RenameRun(d: Durability, fs: Fs, k: nat)
    requires Settled(fs) && k <= 9 && |RENAME_PROTOCOL| == 9
    ensures var s := After(d, RENAME_PROTOCOL[..k], fs);
            RenameFacts(k, s) && RenameClaim(d, k).Holds(s)
  {
    hide RENAME_PROTOCOL, Apply, SurvivesAtomic, SurvivesLagged, Crashes;
    if k == 0 {
      assert RENAME_PROTOCOL[..0] == [];
    } else {
      RenameRun(d, fs, k - 1);
      AfterNext(d, RENAME_PROTOCOL, fs, k - 1);
      RenameOps(k - 1);
      RenameStep(d, After(d, RENAME_PROTOCOL[..k - 1], fs), k - 1);
    }
  }

  lemma {:induction false} RenameWitness(d: Durability, fs: Fs, k: nat) returns (ns: Namespace)
    requires Settled(fs) && k <= 9 && |RENAME_PROTOCOL| == 9 && !d.Atomic?
    ensures ns in After(d, RENAME_PROTOCOL[..k], fs).survives
    ensures (d.Lagged? && 1 < k) || Anchor !in fs.seen ==> Anchor !in ns
    ensures RENAME_REPLACE < k ==> Store !in ns
  {
    hide RENAME_PROTOCOL, RenameClaim, Apply, After, SurvivesAtomic, SurvivesLagged;
    if k == 0 {
      assert RENAME_PROTOCOL[..0] == [];
      AfterNothing(d, fs);
      ns := fs.seen;
    } else {
      var before := RenameWitness(d, fs, k - 1);
      AfterNext(d, RENAME_PROTOCOL, fs, k - 1);
      RenameOps(k - 1);
      RenameRun(d, fs, k - 1);
      var s := After(d, RENAME_PROTOCOL[..k - 1], fs);
      ns := Carried(d, before, RenameOp(k - 1), s);
      CarriedSurvives(d, before, RenameOp(k - 1), s);
    }
  }

  lemma RenameCrash(d: Durability, fs: Fs, k: nat, ns: Namespace, holds: map<File, Content>)
    requires Settled(fs) && k <= 9 && |RENAME_PROTOCOL| == 9 && Reachable(d, RENAME_PROTOCOL, fs, k, ns, holds)
    requires d.Atomic? || k < RENAME_REPLACE
    ensures Whole(ns, holds, Store)
  {
    hide RENAME_PROTOCOL, Apply, SurvivesAtomic, SurvivesLagged, Crashes, After;
    RenameRun(d, fs, k);
    if k < 9 {
      RenameOps(k);
      RenameStep(d, After(d, RENAME_PROTOCOL[..k], fs), k);
    }
  }

  lemma RenameLoss(d: Durability, fs: Fs, k: nat)
    requires Settled(fs) && RENAME_REPLACE <= k <= 9 && |RENAME_PROTOCOL| == 9 && !d.Atomic?
    ensures exists ns, holds :: Reachable(d, RENAME_PROTOCOL, fs, k, ns, holds) && Store !in ns
                                && (d.Lagged? || Anchor !in fs.seen ==> Anchor !in ns)
  {
    hide RENAME_PROTOCOL, After;
    var before := After(d, RENAME_PROTOCOL[..k], fs);
    var ns := RenameWitness(d, fs, k);
    if k == RENAME_REPLACE {
      RenameOps(k);
      RenameRun(d, fs, k);
      CarriedSurvives(d, ns, RenameOver(Staging, Store), before);
      ns := ns - {Staging} - {Store};
    }
    assert Reachable(d, RENAME_PROTOCOL, fs, k, ns, before.holds);
  }

  /** The rename protocol leaves a whole old or whole new store at every point of every power loss exactly when
      replacement is atomic or has not begun; otherwise it reaches a state with neither store nor anchor. */
  lemma RenameSafeExactly(d: Durability, fs: Fs, k: nat)
    requires Settled(fs) && k <= 9
    ensures |RENAME_PROTOCOL| == 9
    ensures (forall ns, holds :: Reachable(d, RENAME_PROTOCOL, fs, k, ns, holds) ==> Whole(ns, holds, Store))
            <==> d.Atomic? || k < RENAME_REPLACE
    ensures !d.Atomic? && RENAME_REPLACE <= k && (d.Lagged? || Anchor !in fs.seen) ==>
              exists ns, holds :: Reachable(d, RENAME_PROTOCOL, fs, k, ns, holds) && Store !in ns && Anchor !in ns
  {
    ProtocolShape();
    hide RENAME_PROTOCOL, After, Apply, Crashes, Reachable;
    if d.Atomic? || k < RENAME_REPLACE {
      forall ns, holds | Reachable(d, RENAME_PROTOCOL, fs, k, ns, holds) ensures Whole(ns, holds, Store) {
        RenameCrash(d, fs, k, ns, holds);
      }
    } else {
      RenameLoss(d, fs, k);
      var ns, holds :| Reachable(d, RENAME_PROTOCOL, fs, k, ns, holds) && Store !in ns
                       && (d.Lagged? || Anchor !in fs.seen ==> Anchor !in ns);
      assert !Whole(ns, holds, Store);
    }
  }

  /** The rename protocol, where it is used, keeps a later commit: under atomic replacement the new file alone
      is found after it. */
  lemma CommitAfterRenameKept(fs: Fs, ns: Namespace)
    requires Settled(fs)
    ensures |RENAME_PROTOCOL| == 9
    ensures var s := After(Atomic, RENAME_PROTOCOL[..9], fs);
      Store in s.seen && (ns in s.survives ==> Finds(ns, Committed(s.holds, s.seen)) == Some(Newer))
  {
    ProtocolShape();
    hide RENAME_PROTOCOL, After;
    RenameRun(Atomic, fs, 7);
    RenameOps(7);
    RenameOps(8);
    AfterNext(Atomic, RENAME_PROTOCOL, fs, 7);
    AfterNext(Atomic, RENAME_PROTOCOL, fs, 8);
  }

  // ---- recovery from the anchor ---------------------------------------------------------

  /** `restore_store_from_reclaim_anchor`: copy the anchor, publish the copy, take the store's name. */
  const RESTORE: seq<Op> := [
    Unlink(CandidateTmp), Unlink(Candidate),
    Create(CandidateTmp, COPY_FILE), SyncFile(COPY_FILE, Compacted), SyncDir,
    Rename(CandidateTmp, Candidate), SyncDir,
    Rename(Candidate, Store), SyncDir,
    Unlink(Anchor), SyncDir]

  const RESTORE_TAKES: nat := 7

  function RestoreOp(k: nat): Op
    requires k < 11
  {
    if k == 0 then Unlink(CandidateTmp) else if k == 1 then Unlink(Candidate)
    else if k == 2 then Create(CandidateTmp, COPY_FILE)
    else if k == 3 then SyncFile(COPY_FILE, Compacted)
    else if k == 5 then Rename(CandidateTmp, Candidate)
    else if k == RESTORE_TAKES then Rename(Candidate, Store)
    else if k == 9 then Unlink(Anchor)
    else SyncDir
  }

  lemma RestoreOps(k: nat)
    requires k < 11
    ensures |RESTORE| == 11 && RESTORE[k] == RestoreOp(k)
  {
  }

  /** What a writer open recovers from: no store in any surviving namespace, and a whole anchor in all. */
  ghost predicate Recoverable(fs: Fs) {
    && fs.seen in fs.survives
    && (forall ns :: ns in fs.survives ==> Store !in ns && Anchor in ns && ns[Anchor] == FRESH_FILE)
    && FRESH_FILE in fs.holds && fs.holds[FRESH_FILE] == Compacted && COPY_FILE !in fs.holds
    && Store !in fs.unpublished && Anchor !in fs.unpublished
  }

  function RestoreClaim(k: nat): Claim {
    if k <= RESTORE_TAKES then Claim({}, true, true)
    else Claim({COPY_FILE}, k == 8, k <= 9)
  }

  ghost predicate RestoreFacts(d: Durability, k: nat, fs: Fs) {
    && FRESH_FILE in fs.holds && fs.holds[FRESH_FILE] == Compacted
    && (2 < k <= 5 ==> CandidateTmp in fs.seen && fs.seen[CandidateTmp] == COPY_FILE)
    && (3 < k ==> COPY_FILE in fs.holds && fs.holds[COPY_FILE] == Compacted)
    && (5 < k <= 7 ==> Candidate in fs.seen && fs.seen[Candidate] == COPY_FILE)
    && (k == 8 ==> RestoreClaim(9).Holds(Apply(d, SyncDir, fs)))
  }

  lemma TakeClaims(d: Durability, fs: Fs)
    requires Claim({}, true, true).Holds(fs) && Candidate in fs.seen && fs.seen[Candidate] == COPY_FILE
    ensures var named := Apply(d, Rename(Candidate, Store), fs);
            && Claim({COPY_FILE}, true, true).Holds(named)
            && Claim({COPY_FILE}, false, true).Holds(Apply(d, SyncDir, named))
    ensures forall ns :: ns in Crashes(d, Rename(Candidate, Store), fs) ==> Claim({COPY_FILE}, true, true).Of(ns)
  {
  }

  lemma RestoreFactsStep(d: Durability, fs: Fs, k: nat)
    requires k < 11 && RestoreFacts(d, k, fs)
    ensures var next := Apply(d, RestoreOp(k), fs);
            k + 1 != 8 ==> RestoreFacts(d, k + 1, next)
    ensures k == 7 ==> Apply(d, RestoreOp(k), fs).holds == fs.holds
    ensures k == 7 ==> Candidate in fs.seen && fs.seen[Candidate] == COPY_FILE
    ensures FRESH_FILE in fs.holds && fs.holds[FRESH_FILE] == Compacted
    ensures k > 3 ==> COPY_FILE in fs.holds && fs.holds[COPY_FILE] == Compacted
  {
    hide SurvivesAtomic, SurvivesLagged;
  }

  lemma RestoreStep(d: Durability, fs: Fs, k: nat)
    requires k < 11 && RestoreFacts(d, k, fs) && RestoreClaim(k).Holds(fs)
    ensures var next := Apply(d, RestoreOp(k), fs);
            && RestoreFacts(d, k + 1, next) && RestoreClaim(k + 1).Holds(next)
            && forall ns :: ns in Crashes(d, RestoreOp(k), fs) ==>
                 RestoreClaim(if k == RESTORE_TAKES || k == 9 then k + 1 else k).Of(ns)
  {
    hide SurvivesAtomic, SurvivesLagged, Crashes, Apply, Claim.Holds, Claim.Of;
    RestoreFactsStep(d, fs, k);
    if k == RESTORE_TAKES {
      TakeClaims(d, fs);
    } else if k == 9 {
      UnanchorClaims(d, fs, RestoreClaim(k));
    } else {
      SparedStays(d, RestoreOp(k), fs, RestoreClaim(k));
    }
  }

  lemma {:induction false} RestoreRun(d: Durability, fs: Fs, k: nat)
    requires Recoverable(fs) && k <= 11 && |RESTORE| == 11
    ensures var s := After(d, RESTORE[..k], fs); RestoreFacts(d, k, s) && RestoreClaim(k).Holds(s)
  {
    hide RESTORE, Apply, SurvivesAtomic, SurvivesLagged, Crashes;
    if k == 0 {
      assert RESTORE[..0] == [];
    } else {
      RestoreRun(d, fs, k - 1);
      AfterNext(d, RESTORE, fs, k - 1);
      RestoreOps(k - 1);
      RestoreStep(d, After(d, RESTORE[..k - 1], fs), k - 1);
    }
  }

  /** Recovery is itself safe to lose power in, at every point and under every guarantee: what survives is again
      recoverable, or has the whole compacted store. When it has run, every surviving namespace has the store. */
  lemma RestoreIsSafe(d: Durability, fs: Fs, k: nat, ns: Namespace, holds: map<File, Content>)
    requires Recoverable(fs) && k <= 11 && |RESTORE| == 11 && Reachable(d, RESTORE, fs, k, ns, holds)
    ensures Safe(ns, holds)
    ensures k == 11 ==> Store in ns && ns[Store] == COPY_FILE && holds[COPY_FILE] == Compacted
  {
    hide RESTORE, SurvivesAtomic, SurvivesLagged, Crashes, Apply, After;
    RestoreRun(d, fs, k);
    if k < 11 {
      RestoreOps(k);
      RestoreStep(d, After(d, RESTORE[..k], fs), k);
      RestoreFactsStep(d, After(d, RESTORE[..k], fs), k);
    }
  }

  // ---- the names in view ----------------------------------------------------------------

  /** An operation that needs its target name free. */
  predicate FreeFor(op: Op, seen: Namespace) {
    match op
    case Create(n, _) => n !in seen
    case Rename(_, b) => b !in seen
    case _ => true
  }

  /** The names a process sees before operation `k` of each protocol. */
  predicate AnchorSeen(k: nat, seen: Namespace) {
    && (1 <= k <= 4 || 8 <= k ==> Staging !in seen)
    && (2 <= k <= 7 || 17 <= k ==> Anchor !in seen)
    && (3 <= k <= 9 || 13 <= k ==> CandidateTmp !in seen)
    && (4 <= k <= 12 || 15 <= k ==> Candidate !in seen)
    && (10 <= k <= 12 ==> CandidateTmp in seen && seen[CandidateTmp] == COPY_FILE)
    && (13 <= k <= 14 ==> Candidate in seen && seen[Candidate] == COPY_FILE)
    && (15 <= k ==> Store in seen && seen[Store] == COPY_FILE)
  }

  predicate RenameSeen(k: nat, seen: Namespace) {
    && (1 <= k <= 4 || 8 <= k ==> Staging !in seen)
    && (2 <= k ==> Anchor !in seen) && (3 <= k ==> CandidateTmp !in seen) && (4 <= k ==> Candidate !in seen)
    && (5 <= k <= 7 ==> Staging in seen && seen[Staging] == FRESH_FILE)
    && (8 <= k ==> Store in seen && seen[Store] == FRESH_FILE)
  }

  predicate RestoreSeen(k: nat, seen: Namespace) {
    && (1 <= k <= 2 || 6 <= k ==> CandidateTmp !in seen)
    && (2 <= k <= 5 || 8 <= k ==> Candidate !in seen)
    && (k <= 7 ==> Store !in seen) && (10 <= k ==> Anchor !in seen)
    && (3 <= k <= 5 ==> CandidateTmp in seen && seen[CandidateTmp] == COPY_FILE)
    && (6 <= k <= 7 ==> Candidate in seen && seen[Candidate] == COPY_FILE)
    && (8 <= k ==> Store in seen && seen[Store] == COPY_FILE)
  }

  ghost predicate IsAnchorProtocol(ops: seq<Op>) { |ops| == 18 && forall k :: 0 <= k < 18 ==> ops[k] == AnchorOp(k) }
  ghost predicate IsRenameProtocol(ops: seq<Op>) { |ops| == 9 && forall k :: 0 <= k < 9 ==> ops[k] == RenameOp(k) }
  ghost predicate IsRestore(ops: seq<Op>) { |ops| == 11 && forall k :: 0 <= k < 11 ==> ops[k] == RestoreOp(k) }

  lemma SeenNext(d: Durability, ops: seq<Op>, fs: Fs, k: nat)
    requires k < |ops|
    ensures After(d, ops[..k + 1], fs).seen == Seen(ops[k], After(d, ops[..k], fs).seen)
  {
    AfterNext(d, ops, fs, k);
    hide After, SurvivesAtomic, SurvivesLagged;
  }

  lemma AnchorSeenStep(k: nat, seen: Namespace)
    requires k < 18 && AnchorSeen(k, seen)
    ensures FreeFor(AnchorOp(k), seen) && AnchorSeen(k + 1, Seen(AnchorOp(k), seen))
  {
  }

  lemma RenameSeenStep(k: nat, seen: Namespace)
    requires k < 9 && RenameSeen(k, seen)
    ensures FreeFor(RenameOp(k), seen) && RenameSeen(k + 1, Seen(RenameOp(k), seen))
  {
  }

  lemma RestoreSeenStep(k: nat, seen: Namespace)
    requires k < 11 && RestoreSeen(k, seen)
    ensures FreeFor(RestoreOp(k), seen) && RestoreSeen(k + 1, Seen(RestoreOp(k), seen))
  {
  }

  lemma {:induction false} AnchorNames(d: Durability, ops: seq<Op>, fs: Fs, k: nat)
    requires IsAnchorProtocol(ops) && k <= 18
    ensures AnchorSeen(k, After(d, ops[..k], fs).seen)
  {
    hide After, AnchorSeen, AnchorOp, Seen;
    if k > 0 {
      AnchorNames(d, ops, fs, k - 1);
      SeenNext(d, ops, fs, k - 1);
      AnchorSeenStep(k - 1, After(d, ops[..k - 1], fs).seen);
    } else {
      NothingSeen(After(d, ops[..k], fs).seen);
    }
  }

  lemma NothingSeen(seen: Namespace)
    ensures AnchorSeen(0, seen) && RenameSeen(0, seen) && (Store !in seen ==> RestoreSeen(0, seen))
  {
  }

  lemma {:induction false} RenameNames(d: Durability, ops: seq<Op>, fs: Fs, k: nat)
    requires IsRenameProtocol(ops) && k <= 9
    ensures RenameSeen(k, After(d, ops[..k], fs).seen)
  {
    hide After, RenameSeen, RenameOp, Seen;
    if k > 0 {
      RenameNames(d, ops, fs, k - 1);
      SeenNext(d, ops, fs, k - 1);
      RenameSeenStep(k - 1, After(d, ops[..k - 1], fs).seen);
    } else {
      NothingSeen(After(d, ops[..k], fs).seen);
    }
  }

  lemma {:induction false} RestoreNames(d: Durability, ops: seq<Op>, fs: Fs, k: nat)
    requires IsRestore(ops) && k <= 11 && Store !in fs.seen
    ensures RestoreSeen(k, After(d, ops[..k], fs).seen)
  {
    hide RestoreSeen, RestoreOp, Seen, Apply;
    if k > 0 {
      RestoreNames(d, ops, fs, k - 1);
      SeenNext(d, ops, fs, k - 1);
      RestoreSeenStep(k - 1, After(d, ops[..k - 1], fs).seen);
    } else {
      NothingSeen(fs.seen);
    }
  }

  /** Whatever debris lies there, every create and every rename of the anchor protocol finds its target name free, and
      when it has returned the store is the copy, with none of its names left beside it. */
  lemma AnchorLeavesNoDebris(d: Durability, fs: Fs, k: nat)
    requires k < 18
    ensures |ANCHOR_PROTOCOL| == 18 && FreeFor(ANCHOR_PROTOCOL[k], After(d, ANCHOR_PROTOCOL[..k], fs).seen)
    ensures After(d, ANCHOR_PROTOCOL, fs).seen == map[Store := COPY_FILE]
  {
    forall k | 0 <= k < 18 ensures |ANCHOR_PROTOCOL| == 18 && ANCHOR_PROTOCOL[k] == AnchorOp(k) { AnchorOps(k); }
    FreeInAnchor(d, ANCHOR_PROTOCOL, fs, k);
  }

  lemma FreeInAnchor(d: Durability, ops: seq<Op>, fs: Fs, k: nat)
    requires IsAnchorProtocol(ops) && k < 18
    ensures FreeFor(ops[k], After(d, ops[..k], fs).seen)
    ensures After(d, ops, fs).seen == map[Store := COPY_FILE]
  {
    hide After, AnchorOp, Seen;
    AnchorNames(d, ops, fs, k);
    AnchorSeenStep(k, After(d, ops[..k], fs).seen);
    AnchorNames(d, ops, fs, 18);
    assert ops[..18] == ops;
    OnlyStore(After(d, ops, fs).seen, COPY_FILE);
  }

  /** So with the rename protocol, which leaves the fresh file. */
  lemma RenameLeavesNoDebris(d: Durability, fs: Fs, k: nat)
    requires k < 9
    ensures |RENAME_PROTOCOL| == 9 && FreeFor(RENAME_PROTOCOL[k], After(d, RENAME_PROTOCOL[..k], fs).seen)
    ensures After(d, RENAME_PROTOCOL, fs).seen == map[Store := FRESH_FILE]
  {
    forall k | 0 <= k < 9 ensures |RENAME_PROTOCOL| == 9 && RENAME_PROTOCOL[k] == RenameOp(k) { RenameOps(k); }
    FreeInRename(d, RENAME_PROTOCOL, fs, k);
  }

  lemma FreeInRename(d: Durability, ops: seq<Op>, fs: Fs, k: nat)
    requires IsRenameProtocol(ops) && k < 9
    ensures FreeFor(ops[k], After(d, ops[..k], fs).seen)
    ensures After(d, ops, fs).seen == map[Store := FRESH_FILE]
  {
    hide After, RenameOp, Seen;
    RenameNames(d, ops, fs, k);
    RenameSeenStep(k, After(d, ops[..k], fs).seen);
    RenameNames(d, ops, fs, 9);
    assert ops[..9] == ops;
    OnlyStore(After(d, ops, fs).seen, FRESH_FILE);
  }

  /** And with the recovery, where no store is in view at the start. */
  lemma RestoreLeavesNoDebris(d: Durability, fs: Fs, k: nat)
    requires k < 11 && Store !in fs.seen
    ensures |RESTORE| == 11 && FreeFor(RESTORE[k], After(d, RESTORE[..k], fs).seen)
    ensures var s := After(d, RESTORE, fs).seen;
            Store in s && s[Store] == COPY_FILE && Anchor !in s && CandidateTmp !in s && Candidate !in s
  {
    forall k | 0 <= k < 11 ensures |RESTORE| == 11 && RESTORE[k] == RestoreOp(k) { RestoreOps(k); }
    FreeInRestore(d, RESTORE, fs, k);
  }

  lemma FreeInRestore(d: Durability, ops: seq<Op>, fs: Fs, k: nat)
    requires IsRestore(ops) && k < 11 && Store !in fs.seen
    ensures FreeFor(ops[k], After(d, ops[..k], fs).seen)
    ensures RestoreSeen(11, After(d, ops, fs).seen)
  {
    hide After, RestoreOp, Seen;
    RestoreNames(d, ops, fs, k);
    RestoreSeenStep(k, After(d, ops[..k], fs).seen);
    RestoreNames(d, ops, fs, 11);
    assert ops[..11] == ops;
  }

  lemma OnlyStore(seen: Namespace, f: File)
    requires Store in seen && seen[Store] == f
    requires Staging !in seen && Anchor !in seen && CandidateTmp !in seen && Candidate !in seen
    ensures seen == map[Store := f]
  {
    forall n | n in seen ensures n == Store {
      match n { case Store => case Staging => case Anchor => case CandidateTmp => case Candidate => }
    }
  }
}
