/**
 The draft-only publisher as a resumable protocol: any number of publishers of one artifact, interleaved and cut off
 between any two commands, against a remote that holds the artifact's branch and its pull requests and that people
 may change at any time.  A command may take effect although its answer is lost.
 */
module Publisher {
  import opened Common
  import opened Hashing
  import opened BundleHash

  /** The bundle of one artifact; each export writes its own time into the manifest. */
  datatype Bundle = Bundle(items: seq<Item>, metadata: string, generatedAt: int)

  /**
   The commit at the tip of the branch, and whether its difference from main is exactly files under `publication/`.
   */
  datatype Branch = Branch(bundle: Bundle, scoped: bool, tip: nat)

  datatype PullRequest = PullRequest(number: nat, draft: bool, open: bool)

  /**
   Pull requests for the branch, oldest first, in whatever state they are; the tips that main's history contains; and
   the next commit's name.
   */
  datatype Remote = Remote(main: Option<Bundle>, branch: Option<Branch>, prs: seq<PullRequest>, merged: set<nat>,
                           next: nat)

  datatype PublishResult = PublishResult(number: nat, artifactHash: Digest, duplicate: bool)

  /** What stays the same over all runs: the artifact type and the bundle but for its export time. */
  datatype Artifact = Artifact(artifactType: string, items: seq<Item>, metadata: string)

  type PublisherId = nat

  /**
   Where a run stands; the last command that succeeded gives the name.  `g` is its bundle's export time, and `history`
   the tips contained in the clone of main that it has committed on.
   */
  datatype Pc =
    | Outside
    | Authenticated(g: int)
    | Listed(g: int, existing: Option<PullRequest>)
    | Inspected(g: int, existing: Option<PullRequest>, remoteExists: bool)
    | Committed(g: int, history: set<nat>)
    | Pushed
    | ReadyToCreate(duplicate: bool)
    | Creating(reported: bool, duplicate: bool)

  /**
   The counters count what took effect: accepted pushes and, among them, fast-forwards; deleted branches; closed or
   merged pull requests and, among them, merges that keep the branch's commits.
   */
  datatype Sys = Sys(remote: Remote, runs: map<PublisherId, Pc>, pushes: nat, forwards: nat, deletions: nat,
                     closings: nat, merges: nat, reports: seq<PublishResult>)

  /**
   `Command(w, works, effect)` is the next external command of `w`: `works` says that nothing fails on the way, and
   a command that fails on the way may still have had its effect.  The others are what people do: `Merge` squashes
   (or rebases) or keeps the branch's commits, `Amend` adds a commit to the branch, and `MainMoves` is any other change
   of main, such as another artifact's.
   */
  datatype Event =
    | Begin(w: PublisherId, g: int)
    | Command(w: PublisherId, works: bool, effect: bool)
    | Cut(w: PublisherId)
    | MarkReady
    | Merge(squash: bool)
    | Close
    | DeleteBranch
    | Amend(bundle: Bundle)
    | MainMoves(main: Option<Bundle>)

  /** What people do. */
  predicate Human(e: Event) {
    !e.Begin? && !e.Command? && !e.Cut?
  }

  predicate TypeAllowed(t: string) {
    t != "" && forall i | 0 <= i < |t| :: 'a' <= t[i] <= 'z' || '0' <= t[i] <= '9' || t[i] == '-'
  }

  /** `PublishResult.branch` must not begin with a dash after `asi/`. */
  predicate ResultAllowed(t: string) {
    t != "" && t[0] != '-'
  }

  function Own(a: Artifact, g: int): Bundle {
    Bundle(a.items, a.metadata, g)
  }

  function Newest(r: Remote): PullRequest
    requires r.prs != []
  {
    r.prs[|r.prs| - 1]
  }

  /** The pull request `_existing_pr` answers with, the newest in any state, or an error for one that is not a draft. */
  function Existing(a: Artifact, r: Remote): Result<Option<PullRequest>, ()> {
    if r.prs == [] then Ok(None)
    else if !Newest(r).draft || !ResultAllowed(a.artifactType) then Err(())
    else Ok(Some(Newest(r)))
  }

  /** `_validate_remote_branch`: scope, artifact hash, and every manifest field but the export time. */
  predicate BranchMatches(a: Artifact, r: Remote) {
    r.branch.Some? && r.branch.value.scoped && ArtifactHash(r.branch.value.bundle.items) == ArtifactHash(a.items)
    && r.branch.value.bundle.items == a.items && r.branch.value.bundle.metadata == a.metadata
  }

  /** The remote takes a push to a new branch, and to one whose tip the pushed commit descends from. */
  predicate PushAccepted(r: Remote, history: set<nat>) {
    r.branch.None? || r.branch.value.tip in history
  }

  /** The commit there may be the very same, which is no change and no error. */
  predicate SameCommit(a: Artifact, r: Remote, g: int) {
    r.branch.Some? && r.branch.value.bundle == Own(a, g) && r.branch.value.scoped
  }

  predicate CreateAccepted(r: Remote) {
    r.branch.Some? && forall i | 0 <= i < |r.prs| :: !r.prs[i].open
  }

  function Push(a: Artifact, r: Remote, g: int): Remote {
    r.(branch := Some(Branch(Own(a, g), true, r.next)), next := r.next + 1)
  }

  function OpenDraft(r: Remote): Remote {
    r.(prs := r.prs + [PullRequest(|r.prs| + 1, true, true)])
  }

  function ResultFor(a: Artifact, pr: PullRequest, duplicate: bool): PublishResult {
    PublishResult(pr.number, ArtifactHash(a.items), duplicate)
  }

  /** What one command leaves: the remote, the place of the run, and the result it ends with, if it does. */
  datatype Answer = Answer(remote: Remote, pc: Pc, result: Option<PublishResult>)

  function Stay(r: Remote, pc: Pc): Answer {
    Answer(r, pc, None)
  }

  function Inspect(a: Artifact, r: Remote, g: int, existing: Option<PullRequest>, remoteExists: bool): Answer {
    if remoteExists then
      if !BranchMatches(a, r) then Stay(r, Outside)
      else if existing.Some? then Answer(r, Outside, Some(ResultFor(a, existing.value, true)))
      else Stay(r, ReadyToCreate(true))
    else if existing.Some? || r.main == Some(Own(a, g)) then Stay(r, Outside)
    else Stay(r, Committed(g, r.merged))
  }

  /** A push to the branch; `effect` also says whether the commit already there is the very same. */
  function PushCommand(a: Artifact, r: Remote, g: int, history: set<nat>, works: bool, effect: bool): Answer {
    if PushAccepted(r, history) then
      if works then Stay(Push(a, r, g), Pushed)
      else if effect then Stay(Push(a, r, g), Outside)
      else Stay(r, Outside)
    else if works && effect && SameCommit(a, r, g) then Stay(r, Pushed)
    else Stay(r, Outside)
  }

  function CreateCommand(r: Remote, works: bool, effect: bool, duplicate: bool): Answer {
    if CreateAccepted(r) && works then Stay(OpenDraft(r), Creating(true, duplicate))
    else Stay(if CreateAccepted(r) && effect then OpenDraft(r) else r, Creating(false, duplicate))
  }

  /** The listing after the create command, whether that was refused, raced or accepted. */
  function Verify(a: Artifact, r: Remote, reported: bool, duplicate: bool): Answer {
    var e := Existing(a, r);
    if e.Err? || e.value.None? then Stay(r, Outside)
    else Answer(r, Outside, Some(ResultFor(a, e.value.value, duplicate || !reported)))
  }

  function List(a: Artifact, r: Remote, g: int): Answer {
    match Existing(a, r)
    case Ok(existing) => Stay(r, Listed(g, existing))
    case Err(_) => Stay(r, Outside)
  }

  /** The next command of a run; one that only reads ends the run when it fails. */
  function Advance(a: Artifact, r: Remote, pc: Pc, works: bool, effect: bool): Answer {
    match pc
    case Outside => Stay(r, Outside)
    case Authenticated(g) => if works then List(a, r, g) else Stay(r, Outside)
    case Listed(g, existing) => if works then Stay(r, Inspected(g, existing, r.branch.Some?)) else Stay(r, Outside)
    case Inspected(g, existing, remoteExists) =>
      if works then Inspect(a, r, g, existing, remoteExists) else Stay(r, Outside)
    case Committed(g, history) => PushCommand(a, r, g, history, works, effect)
    case Pushed => if works && r.branch.Some? then Stay(r, ReadyToCreate(false)) else Stay(r, Outside)
    case ReadyToCreate(duplicate) => CreateCommand(r, works, effect, duplicate)
    case Creating(reported, duplicate) => if works then Verify(a, r, reported, duplicate) else Stay(r, Outside)
  }

  function At(s: Sys, w: PublisherId): Pc {
    if w in s.runs then s.runs[w] else Outside
  }

  /** A command changes the tip of the branch only by an accepted push. */
  function Pushes(before: Option<Branch>, after: Option<Branch>): nat {
    if after.Some? && (before.None? || before.value.tip != after.value.tip) then 1 else 0
  }

  function Forwards(before: Option<Branch>, after: Option<Branch>): nat {
    if before.Some? then Pushes(before, after) else 0
  }

  /** The system after a command of `w`. */
  function Commanded(s: Sys, w: PublisherId, x: Answer): Sys {
    s.(remote := x.remote, runs := s.runs[w := x.pc], pushes := s.pushes + Pushes(s.remote.branch, x.remote.branch),
       forwards := s.forwards + Forwards(s.remote.branch, x.remote.branch),
       reports := s.reports + if x.result.Some? then [x.result.value] else [])
  }

  function SetNewest(r: Remote, pr: PullRequest): Remote
    requires r.prs != []
  {
    r.(prs := r.prs[|r.prs| - 1 := pr])
  }

  predicate NewestOpen(r: Remote) {
    r.prs != [] && Newest(r).open
  }

  function Step(a: Artifact, s: Sys, e: Event): Sys {
    match e
    case Begin(w, g) =>
      if At(s, w).Outside? && TypeAllowed(a.artifactType) then s.(runs := s.runs[w := Authenticated(g)]) else s
    case Command(w, works, effect) => Commanded(s, w, Advance(a, s.remote, At(s, w), works, effect))
    case Cut(w) => s.(runs := s.runs[w := Outside])
    case MarkReady =>
      if NewestOpen(s.remote) then s.(remote := SetNewest(s.remote, Newest(s.remote).(draft := false))) else s
    case Merge(squash) =>
      if !NewestOpen(s.remote) || Newest(s.remote).draft || s.remote.branch.None? then s
      else
        // A squash leaves the branch's own commits out of main, and so its difference from main as it was.
        var b := s.remote.branch.value;
        s.(remote := SetNewest(s.remote, Newest(s.remote).(open := false)).(
             main := Some(b.bundle), branch := Some(b.(scoped := b.scoped && squash)),
             merged := s.remote.merged + if squash then {} else {b.tip}),
           closings := s.closings + 1, merges := s.merges + if squash then 0 else 1)
    case Close =>
      if NewestOpen(s.remote) then
        s.(remote := SetNewest(s.remote, Newest(s.remote).(open := false)), closings := s.closings + 1)
      else s
    case DeleteBranch =>
      if s.remote.branch.Some? then s.(remote := s.remote.(branch := None), deletions := s.deletions + 1) else s
    case Amend(bundle) =>
      if s.remote.branch.Some? then
        s.(remote := s.remote.(branch := Some(Branch(bundle, true, s.remote.next)), next := s.remote.next + 1))
      else s
    case MainMoves(main) => s.(remote := s.remote.(main := main))
  }

  function Run(a: Artifact, s: Sys, es: seq<Event>): Sys
    decreases |es|
  {
    if es == [] then s else Run(a, Step(a, s, es[0]), es[1..])
  }

  function Initial(main: Option<Bundle>): Sys {
    Sys(Remote(main, None, [], {}, 0), map[], 0, 0, 0, 0, 0, [])
  }

  // ----- conservation: what every interleaving keeps -----

  /** How many successes claim to have opened the pull request themselves. */
  function Firsts(reports: seq<PublishResult>): nat {
    if reports == [] then 0
    else Firsts(reports[..|reports| - 1]) + if reports[|reports| - 1].duplicate then 0 else 1
  }

  predicate Claims(pc: Pc) {
    pc == Creating(true, false)
  }

  /** The publishers whose next command may report a pull request of their own. */
  function Claimants(runs: map<PublisherId, Pc>): set<PublisherId> {
    set w | w in runs && Claims(runs[w])
  }

  /** Pull requests are numbered in order, and only the newest can be open. */
  ghost predicate Numbered(r: Remote) {
    && (forall i | 0 <= i < |r.prs| :: r.prs[i].number == i + 1)
    && (forall i | 0 <= i < |r.prs| - 1 :: !r.prs[i].open)
  }

  function Existence(r: Remote): nat {
    if r.branch.Some? then 1 else 0
  }

  function Openness(r: Remote): nat {
    if NewestOpen(r) then 1 else 0
  }

  function Seen(pc: Pc): Option<PullRequest> {
    if pc.Listed? || pc.Inspected? then pc.existing else None
  }

  /** A run knows only pull requests there are, and none at all of a type that cannot be reported. */
  ghost predicate SeenIsReal(a: Artifact, r: Remote, pc: Pc) {
    Seen(pc).Some? ==> 1 <= Seen(pc).value.number <= |r.prs| && ResultAllowed(a.artifactType)
  }

  ghost predicate ResultIsReal(a: Artifact, r: Remote, x: PublishResult) {
    1 <= x.number <= |r.prs| && x.artifactHash == ArtifactHash(a.items) && ResultAllowed(a.artifactType)
  }

  /** The branch's tip is in main's history, so that a push can still fast-forward it. */
  function Contained(r: Remote): nat {
    if r.branch.Some? && r.branch.value.tip in r.merged then 1 else 0
  }

  /** Commit names are used once. */
  ghost predicate Named(r: Remote) {
    (r.branch.Some? ==> r.branch.value.tip < r.next) && forall t | t in r.merged :: t < r.next
  }

  /** A clone contains no more of the branch than main does. */
  ghost predicate CloneOf(r: Remote, pc: Pc) {
    pc.Committed? ==> pc.history <= r.merged
  }

  ghost predicate Inv(a: Artifact, s: Sys) {
    && Numbered(s.remote) && Named(s.remote)
    && s.pushes == s.deletions + Existence(s.remote) + s.forwards
    && s.forwards + Contained(s.remote) <= s.merges <= s.closings
    && (forall w | w in s.runs :: CloneOf(s.remote, s.runs[w]))
    && |s.remote.prs| == s.closings + Openness(s.remote)
    && |Claimants(s.runs)| + Firsts(s.reports) <= |s.remote.prs|
    && (forall w | w in s.runs :: SeenIsReal(a, s.remote, s.runs[w]))
    && (forall x | x in s.reports :: ResultIsReal(a, s.remote, x))
  }

  /** What a command may do to the remote: nothing, a push that is accepted, or a new pull request. */
  lemma CommandOnRemote(a: Artifact, r: Remote, pc: Pc, works: bool, effect: bool)
    ensures var t := Advance(a, r, pc, works, effect).remote;
            || t == r
            || (pc.Committed? && PushAccepted(r, pc.history) && t == Push(a, r, pc.g))
            || (CreateAccepted(r) && t == OpenDraft(r))
  {
  }

  /** A claim on a pull request is made by opening one, and a success that is not a duplicate redeems one. */
  lemma CommandOnClaims(a: Artifact, r: Remote, pc: Pc, works: bool, effect: bool)
    ensures var x := Advance(a, r, pc, works, effect);
            && (Claims(x.pc) ==> !Claims(pc) && x.result.None? && x.remote == OpenDraft(r) && CreateAccepted(r))
            && (x.result.Some? && !x.result.value.duplicate ==> Claims(pc) && x.remote == r)
  {
  }

  lemma CommandIsReal(a: Artifact, r: Remote, pc: Pc, works: bool, effect: bool)
    requires Numbered(r) && SeenIsReal(a, r, pc)
    ensures var x := Advance(a, r, pc, works, effect);
            SeenIsReal(a, r, x.pc) && (x.result.Some? ==> ResultIsReal(a, r, x.result.value))
  {
  }

  lemma FirstsAppend(reports: seq<PublishResult>, more: PublishResult)
    ensures Firsts(reports + [more]) == Firsts(reports) + if more.duplicate then 0 else 1
  {
    assert (reports + [more])[..|reports + [more]| - 1] == reports;
  }

  lemma ClaimantsUpdate(runs: map<PublisherId, Pc>, w: PublisherId, pc: Pc)
    ensures Claimants(runs[w := pc]) == if Claims(pc) then Claimants(runs) + {w} else Claimants(runs) - {w}
  {
    var after := runs[w := pc];
    forall v
      ensures v in Claimants(after) <==> (if v == w then Claims(pc) else v in Claimants(runs))
    {
    }
  }

  lemma ClaimantsMove(runs: map<PublisherId, Pc>, w: PublisherId, pc: Pc)
    ensures |Claimants(runs[w := pc])| + (if w in Claimants(runs) then 1 else 0)
         == |Claimants(runs)| + (if Claims(pc) then 1 else 0)
  {
    ClaimantsUpdate(runs, w, pc);
  }

  lemma ClaimsConserved(a: Artifact, s: Sys, w: PublisherId, works: bool, effect: bool)
    requires Inv(a, s)
    ensures var t := Commanded(s, w, Advance(a, s.remote, At(s, w), works, effect));
            |Claimants(t.runs)| + Firsts(t.reports) <= |t.remote.prs|
  {
    var x := Advance(a, s.remote, At(s, w), works, effect);
    ClaimantsMove(s.runs, w, x.pc);
    CommandOnClaims(a, s.remote, At(s, w), works, effect);
    CommandOnRemote(a, s.remote, At(s, w), works, effect);
    if x.result.Some? {
      FirstsAppend(s.reports, x.result.value);
    } else {
      assert s.reports + [] == s.reports;
    }
  }

  lemma OpenDraftCounts(r: Remote)
    requires Numbered(r) && CreateAccepted(r)
    ensures Numbered(OpenDraft(r)) && Openness(r) == 0 && Openness(OpenDraft(r)) == 1
  {
  }

  /** A push makes a branch, or fast-forwards a tip that main contains to one that it does not. */
  lemma PushCounts(a: Artifact, r: Remote, g: int, history: set<nat>)
    requires Named(r) && history <= r.merged && PushAccepted(r, history)
    ensures var t := Push(a, r, g);
            && Named(t) && t.prs == r.prs && Pushes(r.branch, t.branch) == 1 && Contained(t) == 0
            && Existence(r) + 1 == Existence(t) + Forwards(r.branch, t.branch)
            && Forwards(r.branch, t.branch) == Contained(r)
  {
  }

  lemma PushesConserved(a: Artifact, s: Sys, w: PublisherId, works: bool, effect: bool)
    requires Inv(a, s)
    ensures var t := Commanded(s, w, Advance(a, s.remote, At(s, w), works, effect));
            && Named(t.remote) && Numbered(t.remote)
            && t.pushes == t.deletions + Existence(t.remote) + t.forwards
            && t.forwards + Contained(t.remote) <= t.merges <= t.closings
            && |t.remote.prs| == t.closings + Openness(t.remote) && |s.remote.prs| <= |t.remote.prs|
            && t.remote.merged == s.remote.merged
  {
    var pc := At(s, w);
    CommandOnRemote(a, s.remote, pc, works, effect);
    assert CloneOf(s.remote, pc);
    if pc.Committed? && PushAccepted(s.remote, pc.history) {
      PushCounts(a, s.remote, pc.g, pc.history);
    }
    if CreateAccepted(s.remote) {
      OpenDraftCounts(s.remote);
    }
  }

  lemma CommandClones(a: Artifact, r: Remote, pc: Pc, works: bool, effect: bool)
    requires CloneOf(r, pc)
    ensures CloneOf(r, Advance(a, r, pc, works, effect).pc)
  {
  }

  lemma CommandKeepsInv(a: Artifact, s: Sys, w: PublisherId, works: bool, effect: bool)
    requires Inv(a, s)
    ensures Inv(a, Commanded(s, w, Advance(a, s.remote, At(s, w), works, effect)))
  {
    var x := Advance(a, s.remote, At(s, w), works, effect);
    var t := Commanded(s, w, x);
    ClaimsConserved(a, s, w, works, effect);
    PushesConserved(a, s, w, works, effect);
    CommandClones(a, s.remote, At(s, w), works, effect);
    CommandIsReal(a, s.remote, At(s, w), works, effect);
    forall v | v in t.runs
      ensures SeenIsReal(a, t.remote, t.runs[v]) && CloneOf(t.remote, t.runs[v])
    {
      assert v != w ==> SeenIsReal(a, s.remote, s.runs[v]) && CloneOf(s.remote, s.runs[v]);
    }
    forall y | y in t.reports
      ensures ResultIsReal(a, t.remote, y)
    {
      assert y in s.reports || (x.result.Some? && y == x.result.value);
    }
  }

  lemma OutsideKeepsInv(a: Artifact, s: Sys, w: PublisherId, pc: Pc)
    requires Inv(a, s) && (pc.Outside? || pc.Authenticated?)
    ensures Inv(a, s.(runs := s.runs[w := pc]))
  {
    ClaimantsMove(s.runs, w, pc);
  }

  /** What people do to the newest pull request keeps the numbers and every older one. */
  lemma NewestChanges(r: Remote, pr: PullRequest)
    requires Numbered(r) && r.prs != [] && pr.number == Newest(r).number
    ensures Numbered(SetNewest(r, pr)) && Openness(SetNewest(r, pr)) == if pr.open then 1 else 0
  {
  }

  /** Of what people do, only a merge that keeps the commits brings the branch's tip into main. */
  lemma PeopleOnTips(a: Artifact, s: Sys, e: Event)
    requires Inv(a, s) && Human(e)
    ensures var t := Step(a, s, e);
            && Named(t.remote) && s.remote.merged <= t.remote.merged
            && t.pushes == t.deletions + Existence(t.remote) + t.forwards
            && t.forwards + Contained(t.remote) <= t.merges <= t.closings
  {
  }

  lemma PeopleKeepInv(a: Artifact, s: Sys, e: Event)
    requires Inv(a, s) && Human(e)
    ensures Inv(a, Step(a, s, e))
  {
    if NewestOpen(s.remote) {
      NewestChanges(s.remote, Newest(s.remote).(draft := false));
      NewestChanges(s.remote, Newest(s.remote).(open := false));
    }
    var t := Step(a, s, e);
    PeopleOnTips(a, s, e);
    assert t.runs == s.runs && t.reports == s.reports && |t.remote.prs| == |s.remote.prs|;
    forall w | w in t.runs
      ensures SeenIsReal(a, t.remote, t.runs[w]) && CloneOf(t.remote, t.runs[w])
    {
      assert SeenIsReal(a, s.remote, s.runs[w]) && CloneOf(s.remote, s.runs[w]);
    }
  }

  lemma StepKeepsInv(a: Artifact, s: Sys, e: Event)
    requires Inv(a, s)
    ensures Inv(a, Step(a, s, e))
  {
    match e
    case Command(w, works, effect) => CommandKeepsInv(a, s, w, works, effect);
    case Begin(w, g) => OutsideKeepsInv(a, s, w, Authenticated(g));
    case Cut(w) => OutsideKeepsInv(a, s, w, Outside);
    case _ => PeopleKeepInv(a, s, e);
  }

  lemma {:induction false} RunKeepsInv(a: Artifact, s: Sys, es: seq<Event>)
    requires Inv(a, s)
    ensures Inv(a, Run(a, s, es))
    decreases |es|
  {
    if es != [] {
      StepKeepsInv(a, s, es[0]);
      RunKeepsInv(a, Step(a, s, es[0]), es[1..]);
    }
  }

  /**
   Over every interleaving of any publishers and people, each accepted push but the one that made the present branch
   has been paid for by a deletion or is a fast-forward, each fast-forward by a merge that kept the branch's commits,
   each pull request but an open one by a closing, and no more successes claim to have opened a pull request than
   there are.
   */
  lemma EffectsAreConserved(a: Artifact, main: Option<Bundle>, es: seq<Event>)
    ensures var s := Run(a, Initial(main), es);
            && s.pushes == s.deletions + Existence(s.remote) + s.forwards
            && s.forwards <= s.merges <= s.closings
            && |s.remote.prs| == s.closings + Openness(s.remote)
            && Firsts(s.reports) <= |s.remote.prs|
            && forall x | x in s.reports :: ResultIsReal(a, s.remote, x)
  {
    RunKeepsInv(a, Initial(main), es);
  }

  // ----- publishing once -----

  predicate Removes(e: Event) {
    e.Merge? || e.Close? || e.DeleteBranch?
  }

  predicate NothingRemoved(es: seq<Event>) {
    forall i | 0 <= i < |es| :: !Removes(es[i])
  }

  lemma {:induction false} NothingCounted(a: Artifact, s: Sys, es: seq<Event>)
    requires NothingRemoved(es)
    ensures Run(a, s, es).deletions == s.deletions && Run(a, s, es).closings == s.closings
    decreases |es|
  {
    if es != [] {
      NothingCounted(a, Step(a, s, es[0]), es[1..]);
    }
  }

  /**
   Any number of publishers, interleaved and cut off anywhere, publish once, as long as nobody deletes the branch or
   closes the pull request: at most one accepted push, one pull request, and one success that is not a duplicate;
   every success names that pull request.
   */
  lemma NeverPublishesTwice(a: Artifact, main: Option<Bundle>, es: seq<Event>)
    requires NothingRemoved(es)
    ensures var s := Run(a, Initial(main), es);
            && s.pushes <= 1 && |s.remote.prs| <= 1 && Firsts(s.reports) <= 1
            && forall x | x in s.reports :: |s.remote.prs| == 1 && x.number == s.remote.prs[0].number
  {
    RunKeepsInv(a, Initial(main), es);
    NothingCounted(a, Initial(main), es);
    var s := Run(a, Initial(main), es);
    forall x | x in s.reports
      ensures |s.remote.prs| == 1 && x.number == s.remote.prs[0].number
    {
      assert ResultIsReal(a, s.remote, x);
    }
  }

  // ----- one publisher at a time -----

  /** What a run alone on the remote knows: a pull request it has not seen does not exist, nor a branch to push to. */
  ghost predicate Knows(r: Remote, pc: Pc) {
    match pc
    case Outside => true
    case Authenticated(_) => true
    case Listed(_, existing) => existing.None? ==> r.prs == []
    case Inspected(_, existing, remoteExists) =>
      existing.None? ==> r.prs == [] && (remoteExists <==> r.branch.Some?)
    case Committed(_, _) => r.prs == [] && r.branch.None?
    case Pushed => r.prs == [] && r.branch.Some?
    case ReadyToCreate(_) => r.prs == [] && r.branch.Some?
    case Creating(_, _) => true
  }

  /** Only `w` publishes, and people act only once there is a pull request. */
  ghost predicate Solo(a: Artifact, s: Sys, es: seq<Event>, w: PublisherId)
    decreases |es|
  {
    es == []
    || ((if Human(es[0]) then s.remote.prs != [] else es[0].w == w) && Solo(a, Step(a, s, es[0]), es[1..], w))
  }

  ghost predicate SoloInv(s: Sys, w: PublisherId) {
    && s.runs.Keys <= {w} && Knows(s.remote, At(s, w))
    && |s.remote.prs| <= 1 && s.pushes <= 1
    && (s.remote.prs == [] ==> s.pushes == Existence(s.remote))
    && (s.remote.prs != [] ==> s.pushes == 1)
  }

  lemma SoloCommand(a: Artifact, s: Sys, w: PublisherId, works: bool, effect: bool)
    requires SoloInv(s, w)
    ensures SoloInv(Commanded(s, w, Advance(a, s.remote, At(s, w), works, effect)), w)
  {
  }

  lemma SoloStep(a: Artifact, s: Sys, e: Event, w: PublisherId)
    requires SoloInv(s, w) && if Human(e) then s.remote.prs != [] else e.w == w
    ensures SoloInv(Step(a, s, e), w)
  {
    if e.Command? {
      SoloCommand(a, s, w, e.works, e.effect);
    }
  }

  lemma {:induction false} SoloRun(a: Artifact, s: Sys, es: seq<Event>, w: PublisherId)
    requires SoloInv(s, w) && Solo(a, s, es, w)
    ensures SoloInv(Run(a, s, es), w)
    decreases |es|
  {
    if es != [] {
      SoloStep(a, s, es[0], w);
      SoloRun(a, Step(a, s, es[0]), es[1..], w);
    }
  }

  /**
   Runs that do not overlap publish once even if people delete the branch or close the pull request, because every
   run lists the pull requests of any state before it pushes.
   */
  lemma SoloPublishesOnce(a: Artifact, main: Option<Bundle>, es: seq<Event>, w: PublisherId)
    requires Solo(a, Initial(main), es, w)
    ensures var s := Run(a, Initial(main), es);
            && s.pushes <= 1 && |s.remote.prs| <= 1 && Firsts(s.reports) <= 1
            && forall x | x in s.reports :: |s.remote.prs| == 1 && x.number == s.remote.prs[0].number
  {
    SoloRun(a, Initial(main), es, w);
    RunKeepsInv(a, Initial(main), es);
    var s := Run(a, Initial(main), es);
    forall x | x in s.reports
      ensures |s.remote.prs| == 1 && x.number == s.remote.prs[0].number
    {
      assert ResultIsReal(a, s.remote, x);
    }
  }

  // ----- the phases of the remote -----

  /** No branch, then the branch, then a pull request. */
  function Phase(r: Remote): nat {
    if r.prs != [] then 2 else if r.branch.Some? then 1 else 0
  }

  /** The only step back is to delete a branch that has no pull request yet. */
  lemma PhaseFallsOnlyByDeletion(a: Artifact, s: Sys, e: Event)
    ensures Phase(Step(a, s, e).remote) < Phase(s.remote)
            <==> e.DeleteBranch? && s.remote.prs == [] && s.remote.branch.Some?
  {
    if e.Command? && !At(s, e.w).Committed? && !At(s, e.w).ReadyToCreate? {
      assert Advance(a, s.remote, At(s, e.w), e.works, e.effect).remote == s.remote;
    }
  }

  /** Nobody deletes the branch before it has a pull request. */
  ghost predicate NoEarlyDeletion(a: Artifact, s: Sys, es: seq<Event>)
    decreases |es|
  {
    es == []
    || ((es[0].DeleteBranch? && s.remote.branch.Some? ==> s.remote.prs != [])
          && NoEarlyDeletion(a, Step(a, s, es[0]), es[1..]))
  }

  ghost predicate PhaseRises(a: Artifact, s: Sys, es: seq<Event>)
    decreases |es|
  {
    es == [] || (Phase(s.remote) <= Phase(Step(a, s, es[0]).remote) && PhaseRises(a, Step(a, s, es[0]), es[1..]))
  }

  /** Over any run the phase never falls exactly when nobody deletes a branch without a pull request. */
  lemma {:induction false} PhaseNeverFalls(a: Artifact, s: Sys, es: seq<Event>)
    ensures PhaseRises(a, s, es) <==> NoEarlyDeletion(a, s, es)
    decreases |es|
  {
    if es != [] {
      PhaseFallsOnlyByDeletion(a, s, es[0]);
      PhaseNeverFalls(a, Step(a, s, es[0]), es[1..]);
    }
  }

  // ----- a remote that people leave alone -----

  /** People leave the artifact's branch and pull request alone. */
  predicate LeavesAlone(e: Event) {
    !Human(e) || e.MainMoves?
  }

  predicate AllLeaveAlone(es: seq<Event>) {
    forall i | 0 <= i < |es| :: LeavesAlone(es[i])
  }

  /** The branch, if any, holds the artifact; a pull request is an open draft with that branch. */
  ghost predicate Untouched(a: Artifact, s: Sys) {
    && Inv(a, s)
    && (s.remote.branch.Some? ==> BranchMatches(a, s.remote))
    && (s.remote.prs != [] ==> s.remote.branch.Some?)
    && (forall i | 0 <= i < |s.remote.prs| :: s.remote.prs[i].draft && s.remote.prs[i].open)
  }

  lemma CommandKeepsUntouched(a: Artifact, r: Remote, pc: Pc, works: bool, effect: bool)
    requires (r.branch.Some? ==> BranchMatches(a, r)) && (r.prs != [] ==> r.branch.Some?)
    requires forall i | 0 <= i < |r.prs| :: r.prs[i].draft && r.prs[i].open
    ensures var t := Advance(a, r, pc, works, effect).remote;
            && t.main == r.main && (t.branch.Some? ==> BranchMatches(a, t)) && (t.prs != [] ==> t.branch.Some?)
            && forall i | 0 <= i < |t.prs| :: t.prs[i].draft && t.prs[i].open
  {
  }

  lemma StepKeepsUntouched(a: Artifact, s: Sys, e: Event)
    requires Untouched(a, s) && LeavesAlone(e)
    ensures Untouched(a, Step(a, s, e))
    ensures !e.MainMoves? ==> Step(a, s, e).remote.main == s.remote.main
  {
    StepKeepsInv(a, s, e);
    if e.Command? {
      CommandKeepsUntouched(a, s.remote, At(s, e.w), e.works, e.effect);
    }
  }

  lemma {:induction false} RunKeepsUntouched(a: Artifact, s: Sys, es: seq<Event>)
    requires Untouched(a, s) && AllLeaveAlone(es)
    ensures Untouched(a, Run(a, s, es))
    ensures (forall i | 0 <= i < |es| :: !es[i].MainMoves?) ==> Run(a, s, es).remote.main == s.remote.main
    decreases |es|
  {
    if es != [] {
      StepKeepsUntouched(a, s, es[0]);
      RunKeepsUntouched(a, Step(a, s, es[0]), es[1..]);
    }
  }

  lemma OpenMeansOne(r: Remote)
    requires Numbered(r)
    ensures (forall i | 0 <= i < |r.prs| :: r.prs[i].open) ==> |r.prs| <= 1
  {
    if |r.prs| > 1 {
      assert !r.prs[0].open;
    }
  }

  /**
   As long as people leave its branch and pull request alone, a success means that the branch holds the artifact under
   one open draft, and no publisher has changed main.
   */
  lemma SuccessMeansPublished(a: Artifact, main: Option<Bundle>, es: seq<Event>)
    requires AllLeaveAlone(es)
    ensures var s := Run(a, Initial(main), es);
            && ((forall i | 0 <= i < |es| :: !es[i].MainMoves?) ==> s.remote.main == main)
            && (s.reports != [] ==>
                  && |s.remote.prs| == 1 && s.remote.prs[0].draft && s.remote.prs[0].open
                  && s.remote.branch.Some? && s.remote.branch.value.bundle.items == a.items
                  && s.remote.branch.value.bundle.metadata == a.metadata)
  {
    RunKeepsUntouched(a, Initial(main), es);
    var s := Run(a, Initial(main), es);
    OpenMeansOne(s.remote);
    if s.reports != [] {
      assert ResultIsReal(a, s.remote, s.reports[0]);
    }
  }

  // ----- what a command may answer -----

  /** The branch differs from main under `publication/` only and holds the artifact; the export time may be another. */
  ghost predicate Holds(a: Artifact, r: Remote) {
    && r.branch.Some? && r.branch.value.scoped
    && r.branch.value.bundle.items == a.items && r.branch.value.bundle.metadata == a.metadata
  }

  /** A listing that works sees the newest pull request, goes on with a draft only, and misses none. */
  lemma ListingIsFaithful(a: Artifact, r: Remote, g: int, effect: bool)
    ensures var x := Advance(a, r, Authenticated(g), true, effect);
            && x.remote == r && x.result.None?
            && (x.pc.Listed? <==> r.prs == [] || (r.prs[|r.prs| - 1].draft && ResultAllowed(a.artifactType)))
            && (x.pc.Listed? ==> x.pc == Listed(g, if r.prs == [] then None else Some(r.prs[|r.prs| - 1])))
            && (!x.pc.Listed? ==> x.pc.Outside?)
  {
  }

  /** With a branch there, the run answers or goes on exactly when the branch holds the artifact, whoever changed it. */
  lemma ExistingBranchMustHold(a: Artifact, r: Remote, g: int, existing: Option<PullRequest>, effect: bool)
    ensures var x := Advance(a, r, Inspected(g, existing, true), true, effect);
            && x.remote == r
            && (x.result.Some? || !x.pc.Outside? <==> Holds(a, r))
            && (x.result.Some? <==> Holds(a, r) && existing.Some?)
            && (x.result.Some? ==> x.result.value == PublishResult(existing.value.number, ArtifactHash(a.items), true))
            && (!x.pc.Outside? ==> x.pc == ReadyToCreate(true))
  {
  }

  /** A push leaves the run going on only if the branch now holds its own bundle. */
  lemma PushedBranchHolds(a: Artifact, r: Remote, g: int, history: set<nat>, works: bool, effect: bool)
    ensures var x := Advance(a, r, Committed(g, history), works, effect);
            x.pc.Pushed? ==> Holds(a, x.remote) && x.remote.branch.value.bundle.generatedAt == g
  {
  }

  /** After its push the run goes on to create exactly when the branch is there, and tells nobody anything yet. */
  lemma PushIsVerified(a: Artifact, r: Remote, effect: bool)
    ensures var x := Advance(a, r, Pushed, true, effect);
            x.remote == r && x.result.None? && x.pc == if r.branch.Some? then ReadyToCreate(false) else Outside
  {
  }

  /**
   Whatever becomes of the create command, the run goes on to look for a pull request, so a lost answer is made up
   for.
   */
  lemma CreateIsFollowedUp(a: Artifact, r: Remote, duplicate: bool, works: bool, effect: bool)
    ensures var x := Advance(a, r, ReadyToCreate(duplicate), works, effect);
            var free := r.branch.Some? && forall i | 0 <= i < |r.prs| :: !r.prs[i].open;
            && x.result.None? && x.pc == Creating(free && works, duplicate)
            && x.remote == if free && (works || effect) then OpenDraft(r) else r
    ensures var x := Advance(a, r, ReadyToCreate(duplicate), works, effect);
            var y := Advance(a, x.remote, x.pc, true, true);
            (!works && effect && r.branch.Some? && r.prs == [] && ResultAllowed(a.artifactType)) ==>
              y.result == Some(PublishResult(1, ArtifactHash(a.items), true))
  {
  }

  /** After a merge that keeps the commits, a run that had seen the draft before does not answer with it. */
  lemma MergedIsNotAnswered(a: Artifact, s: Sys, g: int, existing: Option<PullRequest>, works: bool, effect: bool)
    requires NewestOpen(s.remote) && !Newest(s.remote).draft && s.remote.branch.Some?
    ensures var t := Step(a, s, Merge(false));
            var x := Advance(a, t.remote, Inspected(g, existing, true), works, effect);
            x.result.None? && x.pc.Outside? && x.remote == t.remote
  {
  }

  /** A result after creating names the newest pull request, which is a draft, and is new only if this run opened it. */
  lemma CreatedIsVerified(a: Artifact, r: Remote, reported: bool, duplicate: bool, effect: bool)
    ensures var x := Advance(a, r, Creating(reported, duplicate), true, effect);
            && (x.result.Some? <==> r.prs != [] && r.prs[|r.prs| - 1].draft && ResultAllowed(a.artifactType))
            && (x.result.Some? ==>
                  x.result.value == PublishResult(r.prs[|r.prs| - 1].number, ArtifactHash(a.items), duplicate
                      || !reported))
  {
  }

  // ----- a run in which every command works -----

  /** `n` working commands of one run. */
  datatype Driven = Driven(remote: Remote, pc: Pc, results: seq<PublishResult>)

  function Drive(a: Artifact, r: Remote, pc: Pc, n: nat): Driven
    decreases n
  {
    if n == 0 then Driven(r, pc, [])
    else
      var x := Advance(a, r, pc, true, true);
      var d := Drive(a, x.remote, x.pc, n - 1);
      if x.result.Some? then d.(results := [x.result.value] + d.results) else d
  }

  function Commands(w: PublisherId, n: nat): seq<Event> {
    if n == 0 then [] else [Command(w, true, true)] + Commands(w, n - 1)
  }

  lemma {:induction false} RunDrives(a: Artifact, s: Sys, w: PublisherId, n: nat)
    requires w in s.runs
    ensures var t := Run(a, s, Commands(w, n)); var d := Drive(a, s.remote, s.runs[w], n);
            && t.remote == d.remote && t.runs == s.runs[w := d.pc] && t.reports == s.reports + d.results
            && t.deletions == s.deletions && t.closings == s.closings && t.merges == s.merges
    decreases n
  {
    if n == 0 {
      assert s.runs == s.runs[w := s.runs[w]];
      assert s.reports + [] == s.reports;
    } else {
      assert Commands(w, n)[1..] == Commands(w, n - 1);
      var x := Advance(a, s.remote, s.runs[w], true, true);
      RunDrives(a, Step(a, s, Command(w, true, true)), w, n - 1);
      ReportsRegroup(s.reports, x.result, Drive(a, x.remote, x.pc, n - 1).results);
    }
  }

  lemma ReportsRegroup(reports: seq<PublishResult>, result: Option<PublishResult>, rest: seq<PublishResult>)
    ensures (reports + if result.Some? then [result.value] else []) + rest
         == reports + if result.Some? then [result.value] + rest else rest
  {
  }

  lemma {:induction false} DriveOutside(a: Artifact, r: Remote, n: nat)
    ensures Drive(a, r, Outside, n) == Driven(r, Outside, [])
  {
    if n > 0 {
      DriveOutside(a, r, n - 1);
    }
  }

  function Reported(a: Artifact, number: nat, duplicate: bool): seq<PublishResult> {
    if ResultAllowed(a.artifactType) then [PublishResult(number, ArtifactHash(a.items), duplicate)] else []
  }

  /** A pull request is there already: the run checks its branch, whatever became of both. */
  lemma DriveFromPr(a: Artifact, r: Remote, g: int)
    requires r.prs != []
    ensures Drive(a, r, Authenticated(g), 7)
         == Driven(r, Outside, if Newest(r).draft && Holds(a, r) then Reported(a, Newest(r).number, true) else [])
  {
    if Newest(r).draft && ResultAllowed(a.artifactType) {
      var e := Some(Newest(r));
      var pc := Inspected(g, e, r.branch.Some?);
      assert Advance(a, r, Authenticated(g), true, true) == Stay(r, Listed(g, e));
      assert Advance(a, r, Listed(g, e), true, true) == Stay(r, pc);
      assert Drive(a, r, Authenticated(g), 7) == Drive(a, r, Listed(g, e), 6) == Drive(a, r, pc, 5);
      DriveOutside(a, r, 4);
    } else {
      DriveOutside(a, r, 6);
    }
  }

  lemma DriveFromReady(a: Artifact, r: Remote, duplicate: bool, n: nat)
    requires r.prs == [] && r.branch.Some?
    ensures Drive(a, r, ReadyToCreate(duplicate), n + 2) == Driven(OpenDraft(r), Outside, Reported(a, 1, duplicate))
  {
    var t := OpenDraft(r);
    assert Advance(a, r, ReadyToCreate(duplicate), true, true) == Stay(t, Creating(true, duplicate));
    DriveOutside(a, t, n);
  }

  /** Without a pull request the two listings only note whether there is a branch. */
  lemma DriveToInspected(a: Artifact, r: Remote, g: int)
    requires r.prs == []
    ensures Drive(a, r, Authenticated(g), 7) == Drive(a, r, Inspected(g, None, r.branch.Some?), 5)
  {
    assert Advance(a, r, Authenticated(g), true, true) == Stay(r, Listed(g, None));
    assert Advance(a, r, Listed(g, None), true, true) == Stay(r, Inspected(g, None, r.branch.Some?));
  }

  lemma DriveFromBranch(a: Artifact, r: Remote, g: int)
    requires r.prs == [] && r.branch.Some?
    ensures Drive(a, r, Authenticated(g), 7)
         == if Holds(a, r) then Driven(OpenDraft(r), Outside, Reported(a, 1, true)) else Driven(r, Outside, [])
  {
    DriveToInspected(a, r, g);
    if Holds(a, r) {
      assert Advance(a, r, Inspected(g, None, true), true, true) == Stay(r, ReadyToCreate(true));
      DriveFromReady(a, r, true, 2);
    } else {
      DriveOutside(a, r, 4);
    }
  }

  lemma DriveFromNothing(a: Artifact, r: Remote, g: int)
    requires r.prs == [] && r.branch.None?
    ensures Drive(a, r, Authenticated(g), 7)
         == if r.main == Some(Own(a, g)) then Driven(r, Outside, [])
            else Driven(OpenDraft(Push(a, r, g)), Outside, Reported(a, 1, false))
  {
    DriveToInspected(a, r, g);
    if r.main == Some(Own(a, g)) {
      DriveOutside(a, r, 4);
    } else {
      var t := Push(a, r, g);
      var pc := Committed(g, r.merged);
      assert Advance(a, r, Inspected(g, None, false), true, true) == Stay(r, pc);
      assert Advance(a, r, pc, true, true) == Stay(t, Pushed);
      assert Advance(a, t, Pushed, true, true) == Stay(t, ReadyToCreate(false));
      assert Drive(a, r, Inspected(g, None, false), 5) == Drive(a, r, pc, 4) == Drive(a, t, Pushed, 3);
      DriveFromReady(a, t, false, 0);
    }
  }

  function Smooth(w: PublisherId, g: int): seq<Event> {
    [Begin(w, g)] + Commands(w, 7)
  }

  lemma SmoothDrives(a: Artifact, s: Sys, w: PublisherId, g: int)
    requires At(s, w).Outside? && TypeAllowed(a.artifactType)
    ensures var t := Run(a, s, Smooth(w, g)); var d := Drive(a, s.remote, Authenticated(g), 7);
            && t.remote == d.remote && t.runs == s.runs[w := d.pc] && t.reports == s.reports + d.results
            && t.deletions == s.deletions && t.closings == s.closings && t.merges == s.merges
  {
    assert Smooth(w, g)[1..] == Commands(w, 7);
    RunDrives(a, Step(a, s, Begin(w, g)), w, 7);
  }

  lemma RefusedTypeStays(a: Artifact, s: Sys, w: PublisherId, g: int)
    requires At(s, w).Outside? && !TypeAllowed(a.artifactType)
    ensures var t := Run(a, s, Smooth(w, g)); t.remote == s.remote && At(t, w).Outside? && t.reports == s.reports
  {
    assert Smooth(w, g)[1..] == Commands(w, 7);
    OutsideStays(a, s, w, 7);
  }

  lemma {:induction false} OutsideStays(a: Artifact, s: Sys, w: PublisherId, n: nat)
    requires At(s, w).Outside?
    ensures var t := Run(a, s, Commands(w, n));
            t.remote == s.remote && At(t, w).Outside? && t.reports == s.reports
    decreases n
  {
    if n > 0 {
      assert Commands(w, n)[1..] == Commands(w, n - 1);
      assert s.reports + [] == s.reports;
      OutsideStays(a, Step(a, s, Command(w, true, true)), w, n - 1);
    }
  }

  /** `[a-z0-9][a-z0-9-]*` */
  predicate Slug(t: string) {
    && t != "" && ('a' <= t[0] <= 'z' || '0' <= t[0] <= '9')
    && forall i | 0 < i < |t| :: 'a' <= t[i] <= 'z' || '0' <= t[i] <= '9' || t[i] == '-'
  }

  /** What a run adds to the reports if every command works and nobody else acts meanwhile. */
  ghost predicate Outcome(a: Artifact, r: Remote, g: int, added: seq<PublishResult>) {
    if !Slug(a.artifactType) then added == []
    else if r.prs != [] then
      var pr := r.prs[|r.prs| - 1];
      added == if pr.draft && Holds(a, r) then [PublishResult(pr.number, ArtifactHash(a.items), true)] else []
    else if r.branch.Some? then
      added == if Holds(a, r) then [PublishResult(1, ArtifactHash(a.items), true)] else []
    else
      added == if r.main != Some(Bundle(a.items, a.metadata, g)) then [PublishResult(1, ArtifactHash(a.items), false)]
          else []
  }

  /**
   From any remote whatever, a run in which every command works reports exactly this, and when it reports at all the
   branch holds the artifact and the newest pull request is a draft.
   */
  lemma SmoothOutcome(a: Artifact, s: Sys, w: PublisherId, g: int)
    requires At(s, w).Outside?
    ensures var t := Run(a, s, Smooth(w, g));
            && At(t, w).Outside? && s.reports <= t.reports
            && Outcome(a, s.remote, g, t.reports[|s.reports|..])
            && (|t.reports| > |s.reports| ==> Holds(a, t.remote) && t.remote.prs != [] && Newest(t.remote).draft)
  {
    var t, r := Run(a, s, Smooth(w, g)), s.remote;
    if TypeAllowed(a.artifactType) {
      SmoothDrives(a, s, w, g);
      var d := Drive(a, r, Authenticated(g), 7);
      if r.prs != [] {
        DriveFromPr(a, r, g);
      } else if r.branch.Some? {
        DriveFromBranch(a, r, g);
      } else {
        DriveFromNothing(a, r, g);
      }
      assert t.reports[|s.reports|..] == d.results;
    } else {
      RefusedTypeStays(a, s, w, g);
      assert t.reports[|s.reports|..] == [];
    }
  }

  /**
   Resuming: after any runs of any publishers, cut off anywhere, one further run in which every command works ends
   with one more success exactly when the artifact type can be published and reported, and there is a branch already
   or main does not hold this very bundle at that time; the success is new exactly when there was no branch.
   */
  lemma SmoothRunSucceedsIff(a: Artifact, main: Option<Bundle>, es: seq<Event>, w: PublisherId, g: int)
    requires AllLeaveAlone(es) && At(Run(a, Initial(main), es), w).Outside?
    ensures var s := Run(a, Initial(main), es); var t := Run(a, s, Smooth(w, g));
            && At(t, w).Outside? && |s.reports| <= |t.reports| <= |s.reports| + 1
            && (|t.reports| == |s.reports| + 1 <==>
                  TypeAllowed(a.artifactType) && ResultAllowed(a.artifactType)
                  && (s.remote.branch.Some? || s.remote.main != Some(Own(a, g))))
            && (|t.reports| == |s.reports| + 1 ==>
                  t.reports[|s.reports|] == PublishResult(1, ArtifactHash(a.items), s.remote.branch.Some?))
  {
    RunKeepsUntouched(a, Initial(main), es);
    var s := Run(a, Initial(main), es);
    var t := Run(a, s, Smooth(w, g));
    OpenMeansOne(s.remote);
    SmoothOutcome(a, s, w, g);
    assert t.reports == s.reports + t.reports[|s.reports|..];
  }

  // ----- artifact types with a leading dash -----

  /** An artifact type that begins with a dash is never reported as published. */
  lemma LeadingDashNeverSucceeds(a: Artifact, main: Option<Bundle>, es: seq<Event>)
    requires !ResultAllowed(a.artifactType)
    ensures Run(a, Initial(main), es).reports == []
  {
    RunKeepsInv(a, Initial(main), es);
    var s := Run(a, Initial(main), es);
    assert forall i | 0 <= i < |s.reports| :: s.reports[i] in s.reports;
  }

  /** Yet it passes the first check, and a run then leaves the branch and an open pull request behind. */
  lemma LeadingDashIsPublished(a: Artifact, w: PublisherId, g: int)
    requires a.artifactType != "" && a.artifactType[0] == '-'
    requires forall i | 0 <= i < |a.artifactType| ::
               var c := a.artifactType[i]; 'a' <= c <= 'z' || '0' <= c <= '9' || c == '-'
    ensures var t := Run(a, Initial(None), Smooth(w, g));
            && t.remote.branch == Some(Branch(Own(a, g), true, 0)) && |t.remote.prs| == 1 && t.remote.prs[0].open
            && t.reports == []
  {
    var s := Initial(None);
    SmoothDrives(a, s, w, g);
    DriveFromNothing(a, s.remote, g);
  }

  // ----- what people make possible -----

  lemma {:induction false} RunSplit(a: Artifact, s: Sys, es: seq<Event>, fs: seq<Event>)
    ensures Run(a, s, es + fs) == Run(a, Run(a, s, es), fs)
    decreases |es|
  {
    if es == [] {
      assert es + fs == fs;
    } else {
      assert (es + fs)[1..] == es[1..] + fs;
      RunSplit(a, Step(a, s, es[0]), es[1..], fs);
    }
  }

  /** Publisher 1 has found nothing and has committed. */
  function Early(g: int): seq<Event> {
    [Begin(1, g)] + Commands(1, 3)
  }

  lemma EarlyCommits(a: Artifact, g: int)
    requires TypeAllowed(a.artifactType)
    ensures var t := Run(a, Initial(None), Early(g));
            t.remote == Initial(None).remote && t.runs == map[1 := Committed(g, {})] && t.deletions == 0
            && t.merges == 0 && t.reports == []
  {
    var s := Initial(None);
    var r := s.remote;
    assert Early(g)[1..] == Commands(1, 3);
    RunDrives(a, Step(a, s, Begin(1, g)), 1, 3);
    assert Advance(a, r, Authenticated(g), true, true) == Stay(r, Listed(g, None));
    assert Advance(a, r, Listed(g, None), true, true) == Stay(r, Inspected(g, None, false));
    assert Advance(a, r, Inspected(g, None, false), true, true) == Stay(r, Committed(g, {}));
    assert Drive(a, r, Authenticated(g), 3) == Drive(a, r, Listed(g, None), 2)
        == Drive(a, r, Inspected(g, None, false), 1);
  }

  /** What publisher 1 then does on a remote that accepts its push and has no open pull request. */
  lemma LatePublishes(a: Artifact, r: Remote, g: int, history: set<nat>)
    requires ResultAllowed(a.artifactType) && PushAccepted(r, history)
    requires forall i | 0 <= i < |r.prs| :: !r.prs[i].open
    ensures Drive(a, r, Committed(g, history), 4)
         == Driven(OpenDraft(Push(a, r, g)), Outside, [PublishResult(|r.prs| + 1, ArtifactHash(a.items), false)])
  {
    var pc, t := Committed(g, history), Push(a, r, g);
    var u := OpenDraft(t);
    assert Advance(a, r, pc, true, true) == Stay(t, Pushed);
    assert Advance(a, t, Pushed, true, true) == Stay(t, ReadyToCreate(false));
    assert Advance(a, t, ReadyToCreate(false), true, true) == Stay(u, Creating(true, false));
    assert Drive(a, r, pc, 4) == Drive(a, t, Pushed, 3) == Drive(a, t, ReadyToCreate(false), 2);
  }

  /** Publisher 0 has published meanwhile. */
  lemma FirstPublishes(a: Artifact, g: int)
    requires TypeAllowed(a.artifactType) && ResultAllowed(a.artifactType)
    ensures var t := Run(a, Initial(None), Early(g) + Smooth(0, g));
            && t.remote == OpenDraft(Push(a, Initial(None).remote, g))
            && t.runs == map[1 := Committed(g, {}), 0 := Outside]
            && t.deletions == 0 && t.merges == 0 && |t.reports| == 1
  {
    EarlyCommits(a, g);
    RunSplit(a, Initial(None), Early(g), Smooth(0, g));
    SmoothDrives(a, Run(a, Initial(None), Early(g)), 0, g);
    DriveFromNothing(a, Initial(None).remote, g);
  }

  const CLEARING := [Close, DeleteBranch]

  /** People close the pull request and delete the branch. */
  lemma PeopleClear(a: Artifact, s: Sys, r: Remote, g: int)
    requires r.prs == [] && s.remote == OpenDraft(Push(a, r, g))
    ensures var t := Run(a, s, CLEARING);
            && t.remote.prs == [PullRequest(1, true, false)] && t.remote.branch.None?
            && t.runs == s.runs && t.deletions == s.deletions + 1 && t.merges == s.merges && t.reports == s.reports
  {
    assert CLEARING[1..] == [DeleteBranch] && [DeleteBranch][1..] == [];
    assert s.remote.prs == [PullRequest(1, true, true)];
    assert Run(a, s, CLEARING) == Run(a, Step(a, s, Close), [DeleteBranch]);
    assert Run(a, Step(a, s, Close), [DeleteBranch]) == Step(a, Step(a, s, Close), DeleteBranch);
  }

  lemma SecondPublishes(a: Artifact, s: Sys, g: int, history: set<nat>)
    requires ResultAllowed(a.artifactType) && 1 in s.runs && s.runs[1] == Committed(g, history)
    requires s.remote.prs == [PullRequest(1, true, false)] && s.remote.branch.None?
    ensures var t := Run(a, s, Commands(1, 4));
            && |t.remote.prs| == 2 && t.remote.branch.Some? && t.deletions == s.deletions && t.merges == s.merges
            && |t.reports| == |s.reports| + 1
  {
    RunDrives(a, s, 1, 4);
    LatePublishes(a, s.remote, g, history);
  }

  /**
   The bound of one needs that people remove nothing: publisher 1 looks first, publisher 0 publishes, people close
   its pull request and delete its branch, and publisher 1 goes on to publish again.
   */
  lemma RemovalAllowsASecond(a: Artifact, g: int)
    requires TypeAllowed(a.artifactType) && ResultAllowed(a.artifactType)
    ensures var t := Run(a, Initial(None), Early(g) + Smooth(0, g) + CLEARING + Commands(1, 4));
            t.pushes == 2 && t.forwards == 0 && |t.remote.prs| == 2 && |t.reports| == 2
  {
    var s, first := Initial(None), Early(g) + Smooth(0, g);
    FirstPublishes(a, g);
    RunSplit(a, s, first, CLEARING);
    PeopleClear(a, Run(a, s, first), s.remote, g);
    RunSplit(a, s, first + CLEARING, Commands(1, 4));
    SecondPublishes(a, Run(a, s, first + CLEARING), g, {});
    EffectsAreConserved(a, None, first + CLEARING + Commands(1, 4));
  }

  /** Publisher 1 has found nothing, and has not cloned main yet. */
  function Looking(g: int): seq<Event> {
    [Begin(1, g)] + Commands(1, 2)
  }

  lemma LookingFindsNothing(a: Artifact, g: int)
    requires TypeAllowed(a.artifactType)
    ensures var t := Run(a, Initial(None), Looking(g));
            && t.remote == Initial(None).remote && t.runs == map[1 := Inspected(g, None, false)]
            && t.deletions == 0 && t.merges == 0 && t.reports == []
  {
    var s := Initial(None);
    var r := s.remote;
    assert Looking(g)[1..] == Commands(1, 2);
    RunDrives(a, Step(a, s, Begin(1, g)), 1, 2);
    assert Advance(a, r, Authenticated(g), true, true) == Stay(r, Listed(g, None));
    assert Advance(a, r, Listed(g, None), true, true) == Stay(r, Inspected(g, None, false));
    assert Drive(a, r, Authenticated(g), 2) == Drive(a, r, Listed(g, None), 1);
  }

  lemma OtherPublishes(a: Artifact, g: int, h: int)
    requires TypeAllowed(a.artifactType) && ResultAllowed(a.artifactType)
    ensures var t := Run(a, Initial(None), Looking(g) + Smooth(0, h));
            && t.remote == OpenDraft(Push(a, Initial(None).remote, h))
            && t.runs == map[1 := Inspected(g, None, false), 0 := Outside]
            && t.deletions == 0 && t.merges == 0 && |t.reports| == 1
  {
    LookingFindsNothing(a, g);
    RunSplit(a, Initial(None), Looking(g), Smooth(0, h));
    SmoothDrives(a, Run(a, Initial(None), Looking(g)), 0, h);
    DriveFromNothing(a, Initial(None).remote, h);
  }

  const MERGING := [MarkReady, Merge(false)]

  /** People merge the pull request and keep the branch's commits and the branch. */
  lemma PeopleMerge(a: Artifact, s: Sys, h: int)
    requires s.remote == OpenDraft(Push(a, Initial(None).remote, h))
    ensures var t := Run(a, s, MERGING);
            && t.remote.prs == [PullRequest(1, false, false)] && t.remote.branch.Some? && t.remote.merged == {0}
            && t.remote.branch.value.tip == 0 && t.remote.next == 1 && t.remote.main == Some(Own(a, h))
            && t.runs == s.runs && t.deletions == s.deletions && t.merges == s.merges + 1 && t.reports == s.reports
  {
    assert MERGING[1..] == [Merge(false)] && [Merge(false)][1..] == [];
    assert s.remote.prs == [PullRequest(1, true, true)];
    assert Run(a, s, MERGING) == Run(a, Step(a, s, MarkReady), [Merge(false)]);
    assert Run(a, Step(a, s, MarkReady), [Merge(false)]) == Step(a, Step(a, s, MarkReady), Merge(false));
  }

  lemma ForwardPublishes(a: Artifact, s: Sys, g: int, h: int)
    requires ResultAllowed(a.artifactType) && g != h && 1 in s.runs && s.runs[1] == Inspected(g, None, false)
    requires s.remote.prs == [PullRequest(1, false, false)] && s.remote.main == Some(Own(a, h))
    requires s.remote.branch.Some? && s.remote.branch.value.tip in s.remote.merged
    ensures var t := Run(a, s, Commands(1, 5));
            && |t.remote.prs| == 2 && t.remote.branch.Some? && t.deletions == s.deletions && t.merges == s.merges
            && |t.reports| == |s.reports| + 1
  {
    var r := s.remote;
    RunDrives(a, s, 1, 5);
    assert Advance(a, r, Inspected(g, None, false), true, true) == Stay(r, Committed(g, r.merged));
    LatePublishes(a, r, g, r.merged);
    assert Drive(a, r, Inspected(g, None, false), 5) == Drive(a, r, Committed(g, r.merged), 4);
  }

  lemma {:induction false} ForwardsRise(a: Artifact, s: Sys, es: seq<Event>)
    ensures s.forwards <= Run(a, s, es).forwards
    decreases |es|
  {
    if es != [] {
      ForwardsRise(a, Step(a, s, es[0]), es[1..]);
    }
  }

  lemma ForwardIsCounted(a: Artifact, s: Sys, g: int, h: int)
    requires g != h && 1 in s.runs && s.runs[1] == Inspected(g, None, false) && s.remote.main == Some(Own(a, h))
    requires s.remote.branch.Some? && s.remote.branch.value.tip in s.remote.merged
    requires s.remote.branch.value.tip < s.remote.next
    ensures Run(a, s, Commands(1, 5)).forwards >= s.forwards + 1
  {
    var c := Command(1, true, true);
    var s1 := Step(a, s, c);
    var s2 := Step(a, s1, c);
    assert s1.remote == s.remote && s1.runs[1] == Committed(g, s.remote.merged);
    assert s2.remote == Push(a, s.remote, g);
    assert Commands(1, 5)[1..] == Commands(1, 4) && Commands(1, 4)[1..] == Commands(1, 3);
    ForwardsRise(a, s2, Commands(1, 3));
  }

  /**
   A merge that keeps the commits allows a second push without any deletion: publisher 1 looks first, publisher 0
   publishes another export, people merge it, and publisher 1 then clones main, whose history has the branch's tip.
   */
  lemma MergeAllowsASecond(a: Artifact, g: int, h: int)
    requires TypeAllowed(a.artifactType) && ResultAllowed(a.artifactType) && g != h
    ensures var t := Run(a, Initial(None), Looking(g) + Smooth(0, h) + MERGING + Commands(1, 5));
            && t.pushes == 2 && t.forwards == 1 && t.deletions == 0 && |t.remote.prs| == 2 && |t.reports| == 2
  {
    var s, first := Initial(None), Looking(g) + Smooth(0, h);
    OtherPublishes(a, g, h);
    RunSplit(a, s, first, MERGING);
    PeopleMerge(a, Run(a, s, first), h);
    RunSplit(a, s, first + MERGING, Commands(1, 5));
    ForwardPublishes(a, Run(a, s, first + MERGING), g, h);
    ForwardIsCounted(a, Run(a, s, first + MERGING), g, h);
    EffectsAreConserved(a, None, first + MERGING + Commands(1, 5));
  }
}
