/** The ARC2 batch driver (scripts/arc2_batch_inprocess.py) against an API that may answer
    anything, with a state file that survives a crash at any point. */
module Arc2Driver {
  import opened Basics
  import opened Text
  import opened Arc2Trace

  datatype Status = Pending | Skipped | Working | Waiting | Held | Failed | Accepted | Published | Planned | NeedsReview

  predicate Terminal(s: Status) {
    s != Pending && s != Working && s != Waiting
  }

  /** Courses the batch never runs, whatever it is asked for. */
  const KEEP_DRAFT: set<string> := {"C105"}

  datatype Course = Course(code: string, held: bool)

  datatype Track = Track(status: Status, slug: Option<string>, created: bool, attempts: int,
                         nextRetryAt: Option<int>, stalledSince: Option<int>, releaseId: string)

  const FRESH := Track(Pending, None, false, 0, None, None, "")

  /** What outlives the process: the names of the runs the Studio ever queued for a batch, and
      the state file. */
  datatype World = World(studio: seq<string>, file: map<string, Track>)

  /** At most one run was ever queued for the course. */
  ghost predicate OneRunEach(w: World) {
    forall c :: Trimmed(c) ==> multiset(w.studio)[c] <= 1
  }

  /** The track a process starts with, from what the state file says of the course. */
  function Resumed(course: Course, saved: map<string, Track>, includeHeld: bool): Track {
    var base :=
      if course.code in saved && saved[course.code].created && saved[course.code].slug.Some? && saved[course.code].slug.value != "" then
        var o := saved[course.code];
        Track(if o.status == Waiting then Waiting else Pending, o.slug, true, o.attempts, o.nextRetryAt, None, "")
      else FRESH;
    if (course.held && !includeHeld) || course.code in KEEP_DRAFT then base.(status := Skipped) else base
  }

  /** What the driver writes: retries are counted from 0, and waiting for one counts it. */
  predicate SavedOk(t: Track) {
    0 <= t.attempts && (t.status == Waiting ==> 1 <= t.attempts)
  }

  ghost predicate FileOk(file: map<string, Track>) {
    forall c :: c in file ==> SavedOk(file[c])
  }

  predicate Busy(t: Track) {
    t.status == Working || t.status == Waiting
  }

  /** The courses under way. */
  function UnderWay(tracks: map<string, Track>): set<string> {
    set d | d in tracks && (tracks[d].status == Working || tracks[d].status == Waiting)
  }

  /** No course is left to be queued, retried or followed. */
  ghost predicate AllEnded(tracks: map<string, Track>) {
    forall c :: c in tracks ==> tracks[c].status !in {Pending, Working, Waiting}
  }

  /** Only the track of c may differ. */
  ghost predicate SameBut(a: map<string, Track>, b: map<string, Track>, c: string) {
    a.Keys == b.Keys && forall d :: d in a && d != c ==> b[d] == a[d]
  }

  /** Finished courses stay as they ended. */
  ghost predicate TerminalKept(a: map<string, Track>, b: map<string, Track>) {
    a.Keys == b.Keys && forall c :: c in a && Terminal(a[c].status) ==> b[c] == a[c]
  }

  ghost predicate HasName(runs: seq<Run>, name: string) {
    exists r :: r in runs && r.name == name
  }

  function WithName(runs: seq<Run>, run: Run, name: string): (more: seq<Run>)
    ensures HasName(more, name) && forall n :: HasName(runs, n) ==> HasName(more, n)
  {
    var named := run.(name := name);
    var more := runs + [named];
    assert named in more && forall r :: r in runs ==> r in more;
    more
  }

  /** One course's turn in a pass: the tracks before and after, the Moodle known, and the requests. */
  datatype Turn = Turn(before: map<string, Track>, after: map<string, Track>, platform: Option<string>, events: seq<Event>)

  /** One pass: the tracks before and after, the runs listed, the time, and every course's turn. */
  datatype Round = Round(before: map<string, Track>, after: map<string, Track>, runs: seq<Run>, at: real, log: seq<Turn>)

  ghost predicate HandedOn(rounds: seq<Round>, before: map<string, Track>, after: map<string, Track>) {
    if rounds == [] then after == before
    else
      && rounds[|rounds| - 1].after == after
      && HandedOn(rounds[..|rounds| - 1], before, rounds[|rounds| - 1].before)
  }

  ghost predicate Chained(log: seq<Turn>, before: map<string, Track>, after: map<string, Track>) {
    if log == [] then after == before
    else
      && log[|log| - 1].after == after
      && Chained(log[..|log| - 1], before, log[|log| - 1].before)
  }

  ghost function Flatten(log: seq<Turn>): seq<Event> {
    if log == [] then [] else Flatten(log[..|log| - 1]) + log[|log| - 1].events
  }

  lemma FlattenAppend(log: seq<Turn>, turn: Turn)
    ensures Flatten(log + [turn]) == Flatten(log) + turn.events
  {
    assert (log + [turn])[..|log|] == log;
  }

  // ── what a release is, request by request ────────────────────────────

  /** What the process was started with, as far as a release goes; `platform` is the Moodle
      known already. */
  datatype Setting = Setting(toMoodle: bool, mayAcknowledge: bool, platform: Option<string>)

  /** The requests for a packaged run, with what was answered, and the status they end in. */
  ghost predicate ReleaseStory(c: string, run: Run, given: Setting, es: seq<Event>, status: Status) {
    if !run.autoAccepted then es == [] && status == Failed
    else
      && |es| >= 2 && es[0] == SeePackaged(c, run) && es[1].Build? && es[1].code == c && es[1].slug == run.slug
      && if es[1].meta.None? || Lower(Strip(es[1].meta.value.catalogueCode)) != Lower(c) || !es[1].meta.value.autoAccepted
         then |es| == 2 && status == Failed
         else
           && |es| >= 3 && es[2].Upload? && es[2].code == c && es[2].slug == run.slug
           && if es[2].answer.None? then |es| == 3 && status == Failed
              else UploadedStory(c, es[2].answer.value, given, es[3..], status)
  }

  /** The release the upload was answered with. */
  ghost function ReleaseIn(es: seq<Event>): string {
    if |es| >= 3 && es[2].Upload? && es[2].answer.Some? then es[2].answer.value.id else ""
  }

  lemma ReleaseJoined(c: string, run: Run, given: Setting, first: seq<Event>, rest: seq<Event>, status: Status)
    requires |first| == 3 && first[2].Upload? && first[2].answer.Some? && run.autoAccepted
    requires UploadedStory(c, first[2].answer.value, given, rest, status)
    requires first[0] == SeePackaged(c, run) && first[1].Build? && first[1].code == c && first[1].slug == run.slug
    requires first[1].meta.Some? && Lower(Strip(first[1].meta.value.catalogueCode)) == Lower(c) && first[1].meta.value.autoAccepted
    requires first[2].code == c && first[2].slug == run.slug
    ensures ReleaseStory(c, run, given, first + rest, status) && ReleaseIn(first + rest) == first[2].answer.value.id
  {
    assert (first + rest)[3..] == rest;
  }

  /** A release that was uploaded: refused, left to a person, accepted, or found accepted. */
  ghost predicate UploadedStory(c: string, rel: Release, given: Setting, es: seq<Event>, status: Status) {
    if Lower(rel.catalogueCode) != Lower(c) || !rel.autoAccepted then es == [] && status == Failed
    else if rel.state == "accepted" then AcceptedStory(c, rel.id, rel.courseId, given, es, status)
    else if rel.state != "candidate" then es == [] && status == Failed
    else if rel.openActions != [] && !given.mayAcknowledge then es == [] && status == NeedsReview
    else
      && |es| >= 1 && es[0].Accept? && es[0].code == c && es[0].release == rel.id && es[0].acknowledged == rel.openActions
      && if es[0].answer.None? || es[0].answer.value.state != "accepted" then |es| == 1 && status == Failed
         else AcceptedStory(c, rel.id, es[0].answer.value.courseId, given, es[1..], status)
  }

  /** An accepted release: its course is shown, or gets shown; then the LMS, if wanted. */
  ghost predicate AcceptedStory(c: string, release: string, course: string, given: Setting, es: seq<Event>, status: Status) {
    && |es| >= 1 && es[0].ReadCourse? && es[0].code == c && es[0].course == course
    && if es[0].published.None? then |es| == 1 && status == Failed
       else if es[0].published.value then ShownStory(c, release, given, es[1..], status)
       else
         && |es| >= 2 && es[1].PublishCourse? && es[1].code == c && es[1].course == course
         && if es[1].done then ShownStory(c, release, given, es[2..], status) else |es| == 2 && status == Failed
  }

  ghost predicate ShownStory(c: string, release: string, given: Setting, es: seq<Event>, status: Status) {
    if !given.toMoodle then es == [] && status == Accepted
    else if given.platform.Some? && given.platform.value != "" then PublicationStory(c, release, es, status)
    else
      && |es| >= 1 && es[0].ListPlatforms?
      && if es[0].moodle.None? || es[0].moodle.value == "" then |es| == 1 && status == Failed
         else PublicationStory(c, release, es[1..], status)
  }

  /** A publication, asked for again and again until it ends, well or not, or the time is up. */
  ghost predicate PublicationStory(c: string, release: string, es: seq<Event>, status: Status) {
    && |es| >= 1 && es[0].PublishRelease? && es[0].code == c && es[0].release == release
    && if es[0].state.None? then |es| == 1 && status == Failed
       else
         && (forall i :: 1 <= i < |es| ==> es[i].ReadPublication? && es[i].code == c)
         && (forall n :: 1 <= n < |es| ==> !Ended(Known(es[..n])))
         && status == if Known(es) == "published" then Published else Failed
  }

  /** The state last answered. */
  ghost function Known(es: seq<Event>): string
    requires |es| >= 1 && es[0].PublishRelease? && es[0].state.Some?
    requires forall i :: 1 <= i < |es| ==> es[i].ReadPublication?
  {
    if |es| == 1 then es[0].state.value
    else if es[|es| - 1].state.Some? then es[|es| - 1].state.value
    else Known(es[..|es| - 1])
  }

  /** A publication that had not ended before the last answer. */
  ghost predicate Polled(c: string, release: string, es: seq<Event>, state: string) {
    && |es| >= 1 && es[0].PublishRelease? && es[0].code == c && es[0].release == release && es[0].state.Some?
    && (forall i :: 1 <= i < |es| ==> es[i].ReadPublication? && es[i].code == c)
    && (forall n :: 1 <= n < |es| ==> !Ended(Known(es[..n])))
    && Known(es) == state
  }

  lemma PolledNext(c: string, release: string, es: seq<Event>, state: string, answer: Option<string>)
    requires Polled(c, release, es, state) && !Ended(state)
    ensures Polled(c, release, es + [ReadPublication(c, answer)], if answer.Some? then answer.value else state)
  {
    var more := es + [ReadPublication(c, answer)];
    assert more[..|es|] == es;
    forall n | 1 <= n < |more| ensures !Ended(Known(more[..n])) {
      if n < |es| { assert more[..n] == es[..n]; }
    }
  }

  predicate Ended(state: string) {
    state == "published" || state == "failed" || state == "superseded"
  }

  function Min(a: int, b: int): int {
    if a <= b then a else b
  }

  function Max(a: int, b: int): int {
    if a >= b then a else b
  }

  /** The requests sent since then. */
  ghost function Since(before: seq<Event>, after: seq<Event>): seq<Event>
    requires before <= after
  {
    after[|before|..]
  }

  /** Nothing but requests that neither queue nor retry since then. */
  ghost predicate Quiet(before: seq<Event>, after: seq<Event>) {
    && (forall d :: Retries(after, d) == Retries(before, d))
    && (forall d, s :: Queued(after, d, s) <==> Queued(before, d, s))
  }

  class Driver {
    const order: seq<string>
    const concurrency: nat
    const maxAttempts: int
    const retryBase: real
    const retryCap: real
    const stallTimeout: real
    const publishTimeout: real
    const toMoodle: bool
    const testHost: bool
    const resetHint: (string, real) -> Option<real>
    ghost const terms: Terms
    ghost const start: map<string, Track>

    var tracks: map<string, Track>
    var platformId: Option<string>
    var world: World
    var now: real
    const mayAcknowledge: bool
    const hasStateFile: bool

    ghost var trace: seq<Event>
    /** How often the runs were asked for. */
    ghost var lists: nat
    /** Every state of the world so far: a crash may leave any of them. */
    var past: seq<World>

    // ── invariants ─────────────────────────────────────────────────────

    ghost predicate Codes()
      reads this`tracks
    {
      && (forall c :: c in order <==> c in tracks)
      && OrderIsApart()
      && start.Keys == tracks.Keys && terms.mayAcknowledge == mayAcknowledge && concurrency >= 1
    }

    /** A track under way follows a run of the driver's own; a track the process must not touch
        stays skipped or planned. */
    ghost predicate TrackOk(c: string, t: Track)
      reads this`trace
    {
      && (t.created ==> t.slug.Some? && Owned(terms, trace, c, t.slug.value))
      && (Busy(t) ==> t.created)
      && (t.slug.Some? ==> t.created)
      && (c in terms.barred ==> t.status == Skipped)
      && (c in terms.resumed ==> t.created)
      && (t.status == Pending && t.created ==> c in terms.resumed)
    }

    /** Retries sent so far, and the one granted while waiting, fit the attempts counted. */
    ghost predicate RetriesOk(c: string, t: Track)
      reads this`trace
      requires c in start
    {
      var a0 := start[c].attempts;
      var limit := Max(maxAttempts, a0);
      && a0 <= t.attempts && (SavedOk(start[c]) ==> SavedOk(t))
      && Retries(trace, c) + (if t.status == Waiting then 1 else 0)
           <= Min(t.attempts, limit) - a0 + (if start[c].status == Waiting then 1 else 0)
    }

    ghost function OwnBusy(): set<string>
      reads this`tracks
    {
      set c | c in tracks && Busy(tracks[c]) && c !in terms.resumed
    }

    ghost predicate Valid()
      reads this`tracks, this`trace, this`world, this`past
    {
      && Codes() && Sound(terms, trace)
      && (forall c :: c in tracks ==> TrackOk(c, tracks[c]) && RetriesOk(c, tracks[c]))
      && |OwnBusy()| <= concurrency
      && PastOk()
    }

    /** What a crash can leave: never two runs of a course, and a state file as good as the one the
        process started from. */
    ghost predicate PastOk()
      reads this`world, this`past
    {
      && past != [] && past[|past| - 1] == world
      && (forall i :: 0 <= i < |past| ==> OneRunEach(past[i]))
      && (FileOk(past[0].file) ==>
            && (forall c :: c in start ==> SavedOk(start[c]))
            && forall i :: 0 <= i < |past| ==> FileOk(past[i].file))
    }

    // ── construction: a new process, maybe resuming ────────────────────

    constructor (courses: seq<Course>, concurrency: int, maxAttempts: int, toMoodle: bool, platformId: Option<string>,
                 ack: bool, testHost: bool, hasStateFile: bool, includeHeld: bool, retryBase: real, retryCap: real, stallTimeout: real,
                 publishTimeout: real, resetHint: (string, real) -> Option<real>, world: World, resume: bool, now: real)
      requires OneRunEach(world)
      ensures Valid() && trace == [] && this.world == world && past == [world]
      ensures this.testHost == testHost && this.concurrency == (if concurrency >= 1 then concurrency else 1) && this.maxAttempts == maxAttempts
      ensures order == InOrder(courses)
      ensures tracks == start == MakeTracks(courses, if resume then world.file else map[], includeHeld)
    {
      var saved: map<string, Track> := if resume then world.file else map[];
      var codes := InOrder(courses);
      var made := MakeTracks(courses, saved, includeHeld);
      MadeTracks(courses, saved, includeHeld);
      this.order := codes;
      this.concurrency := if concurrency >= 1 then concurrency else 1;
      this.maxAttempts, this.retryBase, this.retryCap := maxAttempts, retryBase, retryCap;
      this.stallTimeout, this.publishTimeout := stallTimeout, publishTimeout;
      this.toMoodle, this.platformId, this.testHost, this.mayAcknowledge := toMoodle, platformId, testHost, ack;
      this.hasStateFile := hasStateFile;
      this.resetHint := resetHint;
      this.tracks, this.world, this.now := made, world, now;
      this.start := made;
      this.terms := StartTerms(made, ack);
      trace, past, lists := [], [world], 0;
      new;
      if FileOk(world.file) {
        MadeTracksOk(courses, saved, includeHeld);
      }
      StartIsValid();
    }

    lemma StartIsValid()
      requires Codes() && terms == StartTerms(tracks, mayAcknowledge) && tracks == start && trace == []
      requires forall c :: c in tracks ==> StartTrack(tracks[c])
      requires past == [world] && OneRunEach(world) && (FileOk(world.file) ==> forall c :: c in start ==> SavedOk(start[c]))
      ensures Valid()
    {
      forall c | c in tracks ensures TrackOk(c, tracks[c]) && RetriesOk(c, tracks[c]) {
        assert StartTrack(tracks[c]);
      }
      assert OwnBusy() == {};
    }

    // ── one track at a time ────────────────────────────────────────────

    /** After requests about course c that queued nothing and changed at most its track: what
        has to hold of that track for the whole to stay valid. */
    twostate lemma StillValid(c: string)
      requires old(Valid()) && c in tracks && c in start && tracks == old(tracks)[c := tracks[c]]
      requires world == old(world) && past == old(past) && Sound(terms, trace)
      requires forall d, s :: Queued(old(trace), d, s) ==> Queued(trace, d, s)
      requires forall d :: d != c ==> Retries(trace, d) == Retries(old(trace), d)
      requires TrackOk(c, tracks[c]) && RetriesOk(c, tracks[c])
      requires Busy(tracks[c]) ==> Busy(old(tracks)[c]) || c in terms.resumed
      requires c in old(tracks)
      ensures Valid()
    {
      forall d | d in tracks ensures TrackOk(d, tracks[d]) && RetriesOk(d, tracks[d]) {
        if d != c {
          assert old(TrackOk(d, tracks[d]) && RetriesOk(d, tracks[d]));
        }
      }
      assert OwnBusy() <= old(OwnBusy());
      SubsetSize(OwnBusy(), old(OwnBusy()));
    }

    /** Records a request with its answer. */
    ghost method Log(e: Event)
      requires Sound(terms, trace) && Justified(terms, trace, e)
      modifies this`trace
      ensures trace == old(trace) + [e] && Sound(terms, trace)
      ensures forall c :: Retries(trace, c) == Retries(old(trace), c) + if e.RetryRun? && e.code == c then 1 else 0
      ensures forall c, s :: Queued(trace, c, s) <==> (e == QueueRun(c, Some(s)) && SlugOk(s)) || Queued(old(trace), c, s)
      ensures forall c, r :: ReleaseAccepted(old(trace), c, r) ==> ReleaseAccepted(trace, c, r)
      ensures forall c, r :: CourseAccepted(old(trace), c, r) ==> CourseAccepted(trace, c, r)
    {
      Appended(terms, trace, e);
      trace := trace + [e];
    }

    method Set(c: string, status: Status)
      requires c in tracks
      modifies this`tracks
      ensures tracks == old(tracks)[c := old(tracks)[c].(status := status)]
    {
      tracks := tracks[c := tracks[c].(status := status)];
    }

    /** POST retry of the course's own run. */
    method Retry(c: string, answer: int)
      requires Valid() && c in tracks && tracks[c].status == Waiting
      modifies this`tracks, this`trace
      ensures Valid() && tracks == old(tracks)[c := tracks[c]]
      ensures old(tracks)[c].slug.Some? && trace == old(trace) + [RetryRun(c, old(tracks)[c].slug.value, answer)]
      ensures tracks[c] == if answer == 200 || answer == 409
                then old(tracks)[c].(nextRetryAt := None, status := Working)
                else old(tracks)[c].(status := Failed)
    {
      var t := tracks[c];
      assert TrackOk(c, t) && RetriesOk(c, t);
      Log(RetryRun(c, t.slug.value, answer));
      if answer == 200 || answer == 409 {
        tracks := tracks[c := t.(nextRetryAt := None, status := Working)];
      } else {
        Set(c, Failed);
      }
      StillValid(c);
    }

    /** What a listed run in this state makes of a working track. */
    ghost predicate Outcome(before: Track, after: Track, run: Run, at: real)
    {
      var on := before.(stalledSince := None);
      match Classify(run)
      case KWorking => after == on.(status := Working)
      case KHeld => after == on.(status := Held)
      case KFailed => after == on.(status := Failed)
      case KRetry =>
        var n := before.attempts + 1;
        if n > maxAttempts then after == on.(attempts := n, status := Failed)
        else
          var when := NextRetry(JobError(run), resetHint(JobError(run), at), n, at, retryBase, retryCap);
          after == on.(attempts := n, status := Waiting, nextRetryAt := Some(when.Floor))
      case KPackaged =>
        && after == on.(status := after.status, releaseId := after.releaseId)
        && after.status in {Accepted, Published, NeedsReview, Failed}
      case _ =>
        if Classify(run) == KGate && run.actionsBlocking then after == before.(status := NeedsReview)
        else
          var since := before.stalledSince;
          after == before.(stalledSince := Some(if since.Some? then since.value else at.Floor),
            status := if since.Some? && at - since.value as real > stallTimeout then Failed else Working)
    }

    // ── what a pass makes of one course ────────────────────────────────

    /** A course no run was queued for: refused, queued, or left for later. */
    ghost predicate NewStory(c: string, before: Track, after: Track, runs: seq<Run>, busy: nat, es: seq<Event>)
    {
      if exists r :: r in runs && Lower(Strip(r.name)) == Lower(c) then after == before.(status := Failed) && es == []
      else if busy < concurrency then
        && |es| == 1 && es[0].QueueRun? && es[0].code == c
        && after == if es[0].answered.Some? && SlugOk(es[0].answered.value)
                    then before.(slug := es[0].answered, created := true, status := Working)
                    else before.(status := Failed)
      else after == before && es == []
    }

    /** A waiting course: nothing before its time, then one retry. */
    ghost predicate WaitStory(c: string, before: Track, after: Track, at: real, es: seq<Event>) {
      if before.nextRetryAt.Some? && at < before.nextRetryAt.value as real then after == before && es == []
      else
        && |es| == 1 && es[0].RetryRun? && es[0].code == c && Some(es[0].slug) == before.slug
        && after == if es[0].status == 200 || es[0].status == 409 then before.(nextRetryAt := None, status := Working)
                    else before.(status := Failed)
    }

    /** A course under way: what its listed run makes of it, if it is listed. */
    ghost predicate WorkStory(c: string, before: Track, after: Track, runs: seq<Run>, at: real, platform: Option<string>, es: seq<Event>)
    {
      && before.slug.Some?
      && match Listed(runs, before.slug.value)
         case None => after == before && es == []
         case Some(run) =>
           && Outcome(before, after, run, at)
           && FollowedBy(c, run, platform, es, after)
    }

    /** One course of a pass, whatever state it is in. */
    ghost predicate PassStory(c: string, before: map<string, Track>, after: map<string, Track>, runs: seq<Run>, at: real,
                              platform: Option<string>, es: seq<Event>)
    {
      && c in before && SameBut(before, after, c)
      && var t, u := before[c], after[c];
         match t.status
         case Pending =>
           if t.created then WorkStory(c, t.(status := Working), u, runs, at, platform, es)
           else NewStory(c, t, u, runs, |UnderWay(before)|, es)
         case Waiting => WaitStory(c, t, u, at, es)
         case Working => WorkStory(c, t, u, runs, at, platform, es)
         case _ => u == t && es == []
    }

    /** A Moodle to publish to is known. */
    predicate PlatformKnown()
      reads this`platformId
    {
      platformId.Some? && platformId.value != ""
    }

    lemma Continued(before: seq<Event>, mid: seq<Event>, after: seq<Event>)
      requires before <= mid <= after
      ensures Since(before, after) == Since(before, mid) + Since(mid, after)
    {
    }

    /** Only at a gate or in a pause does it matter how long the track has stalled. */
    lemma StallIsBesides(before: Track, unstalled: Track, after: Track, run: Run, at: real)
      requires Outcome(unstalled, after, run, at)
      requires unstalled == before || (unstalled == before.(stalledSince := None) && Classify(run) != KGate && Classify(run) != KPaused)
      ensures Outcome(before, after, run, at)
    {
    }

    /** Follows the run's state. */
    method Advance(c: string, run: Run, at: real)
      requires Valid() && c in tracks && tracks[c].status == Working && tracks[c].slug == Some(run.slug)
      modifies this`tracks, this`trace, this`now, this`platformId
      ensures Valid() && SameBut(old(tracks), tracks, c)
      ensures old(trace) <= trace && FollowedBy(c, run, old(platformId), Since(old(trace), trace), tracks[c])
      ensures Outcome(old(tracks)[c], tracks[c], run, at)
    {
      var kind := Classify(run);
      if kind != KGate && kind != KPaused {
        Unstall(c);
      }
      ghost var before := tracks[c];
      FollowKind(c, run, kind, at);
      StallIsBesides(old(tracks)[c], before, tracks[c], run, at);
    }

    /** A packaged run is released; any other sends nothing. */
    ghost predicate FollowedBy(c: string, run: Run, platform: Option<string>, es: seq<Event>, after: Track) {
      if Classify(run) == KPackaged
      then ReleaseStory(c, run, Setting(toMoodle, mayAcknowledge, platform), es, after.status) && after.releaseId == ReleaseIn(es)
      else es == []
    }

    method FollowKind(c: string, run: Run, kind: Kind, at: real)
      requires Valid() && c in tracks && tracks[c].status == Working && tracks[c].slug == Some(run.slug)
      requires kind == Classify(run) && (kind != KGate && kind != KPaused ==> tracks[c].stalledSince == None)
      modifies this`tracks, this`trace, this`now, this`platformId
      ensures Valid() && SameBut(old(tracks), tracks, c)
      ensures old(trace) <= trace && FollowedBy(c, run, old(platformId), Since(old(trace), trace), tracks[c])
      ensures Outcome(old(tracks)[c], tracks[c], run, at)
    {
      if kind == KRetry {
        Defer(c, run, at);
      } else if kind == KPackaged {
        ReleaseRun(c, run);
      } else {
        FollowState(c, run, kind, at);
      }
    }

    method FollowState(c: string, run: Run, kind: Kind, at: real)
      requires Valid() && c in tracks && tracks[c].status == Working
      requires kind == Classify(run) && kind != KRetry && kind != KPackaged
      requires kind != KGate && kind != KPaused ==> tracks[c].stalledSince == None
      modifies this`tracks
      ensures Valid() && tracks == old(tracks)[c := tracks[c]]
      ensures Outcome(old(tracks)[c], tracks[c], run, at)
    {
      if kind == KPaused || (kind == KGate && !run.actionsBlocking) {
        Stall(c, at);
        StallOutcome(old(tracks)[c], tracks[c], run, at);
      } else {
        // at a gate with an open blocking action a person decides
        Move(c, Settled(kind));
        SettledOutcome(old(tracks)[c], tracks[c], run, at);
      }
    }

    lemma StallOutcome(before: Track, after: Track, run: Run, at: real)
      requires Classify(run) == KPaused || (Classify(run) == KGate && !run.actionsBlocking)
      requires var since := before.stalledSince;
               after == before.(stalledSince := Some(if since.Some? then since.value else at.Floor),
                 status := if since.Some? && at - since.value as real > stallTimeout then Failed else Working)
      requires before.status == Working
      ensures Outcome(before, after, run, at)
    {
    }

    lemma SettledOutcome(before: Track, after: Track, run: Run, at: real)
      requires Classify(run) in {KWorking, KHeld, KFailed} || (Classify(run) == KGate && run.actionsBlocking)
      requires after == before.(status := Settled(Classify(run)))
      requires Classify(run) != KGate ==> before.stalledSince == None
      ensures Outcome(before, after, run, at)
    {
    }

    /** Where a run that needs no retry, release or wait puts its track. */
    function Settled(kind: Kind): Status {
      if kind == KWorking then Working else if kind == KHeld then Held else if kind == KFailed then Failed else NeedsReview
    }

    method Unstall(c: string)
      requires Valid() && c in tracks && tracks[c].status == Working
      modifies this`tracks
      ensures Valid() && tracks == old(tracks)[c := old(tracks)[c].(stalledSince := None)]
    {
      assert TrackOk(c, tracks[c]) && RetriesOk(c, tracks[c]);
      tracks := tracks[c := tracks[c].(stalledSince := None)];
      StillValid(c);
    }

    /** A running track goes on working, or ends. */
    method Move(c: string, status: Status)
      requires Valid() && c in tracks && tracks[c].status == Working
      requires status == Working || (Terminal(status) && status != Skipped)
      modifies this`tracks
      ensures Valid() && tracks == old(tracks)[c := old(tracks)[c].(status := status)]
    {
      assert TrackOk(c, tracks[c]) && RetriesOk(c, tracks[c]);
      Set(c, status);
      StillValid(c);
    }

    /** A failed job that may be tried again: counted, then retried later or given up. */
    method Defer(c: string, run: Run, at: real)
      requires Valid() && c in tracks && tracks[c].status == Working
      modifies this`tracks
      ensures Valid() && tracks == old(tracks)[c := tracks[c]]
      ensures var t := old(tracks)[c];
              var n := t.attempts + 1;
              var when := NextRetry(JobError(run), resetHint(JobError(run), at), n, at, retryBase, retryCap);
              tracks[c] == if n > maxAttempts then t.(attempts := n, status := Failed)
                           else t.(attempts := n, status := Waiting, nextRetryAt := Some(when.Floor))
    {
      var t := tracks[c].(attempts := tracks[c].attempts + 1);
      if t.attempts > maxAttempts {
        Count(c, t.(status := Failed));
      } else {
        var when := NextRetry(JobError(run), resetHint(JobError(run), at), t.attempts, at, retryBase, retryCap);
        Count(c, t.(status := Waiting, nextRetryAt := Some(when.Floor)));
      }
    }

    method Count(c: string, t: Track)
      requires Valid() && c in tracks && tracks[c].status == Working
      requires t == tracks[c].(attempts := tracks[c].attempts + 1, status := t.status, nextRetryAt := t.nextRetryAt)
      requires t.status == Failed || (t.status == Waiting && t.attempts <= maxAttempts)
      modifies this`tracks
      ensures Valid() && tracks == old(tracks)[c := t]
    {
      assert TrackOk(c, tracks[c]) && RetriesOk(c, tracks[c]);
      tracks := tracks[c := t];
      StillValid(c);
    }

    /** Waiting at a gate, or paused, with nothing queued: given up after a while. */
    method Stall(c: string, at: real)
      requires Valid() && c in tracks && tracks[c].status == Working
      modifies this`tracks
      ensures Valid() && tracks == old(tracks)[c := tracks[c]]
      ensures var since := old(tracks)[c].stalledSince;
              tracks[c] == old(tracks)[c].(stalledSince := Some(if since.Some? then since.value else at.Floor),
                status := if since.Some? && at - since.value as real > stallTimeout then Failed else Working)
    {
      var t := tracks[c];
      assert TrackOk(c, t) && RetriesOk(c, t);
      if t.stalledSince.None? {
        tracks := tracks[c := t.(stalledSince := Some(at.Floor))];
      } else if at - t.stalledSince.value as real > stallTimeout {
        Set(c, Failed);
      }
      StillValid(c);
    }

    // ── release, accept, publish ───────────────────────────────────────

    /** A packaged run: released only when everything on the way says it is test content of
        this course. Ends the track. */
    method ReleaseRun(c: string, run: Run)
      requires Valid() && c in tracks && tracks[c].status == Working && tracks[c].slug == Some(run.slug)
      requires Classify(run) == KPackaged
      modifies this`tracks, this`trace, this`now, this`platformId
      ensures Valid() && tracks == old(tracks)[c := tracks[c]]
      ensures old(trace) <= trace && FollowedBy(c, run, old(platformId), Since(old(trace), trace), tracks[c])
      ensures tracks[c].status in {Accepted, Published, NeedsReview, Failed}
      ensures tracks[c] == old(tracks)[c].(status := tracks[c].status, releaseId := tracks[c].releaseId)
    {
      var t := tracks[c];
      assert TrackOk(c, t) && RetriesOk(c, t);
      var status, releaseId;
      status, releaseId := ReleaseSteps(c, run);
      tracks := tracks[c := t.(status := status, releaseId := releaseId)];
      StillValid(c);
    }

    /** The requests of a release and the status they end in. */
    method ReleaseSteps(c: string, run: Run) returns (status: Status, releaseId: string)
      requires Sound(terms, trace) && c !in terms.barred && Owned(terms, trace, c, run.slug)
      requires Classify(run) == KPackaged && terms.mayAcknowledge == mayAcknowledge
      modifies this`trace, this`now, this`platformId
      ensures Sound(terms, trace) && old(trace) <= trace && Quiet(old(trace), trace)
      ensures ReleaseStory(c, run, Setting(toMoodle, mayAcknowledge, old(platformId)), Since(old(trace), trace), status)
      ensures status in {Accepted, Published, NeedsReview, Failed} && releaseId == ReleaseIn(Since(old(trace), trace))
    {
      releaseId := "";
      if !run.autoAccepted { return Failed, releaseId; }
      var uploaded, rel := BuildAndUpload(c, run);
      ghost var sent := trace;
      if !uploaded || !rel.Some? { return Failed, releaseId; }
      releaseId := rel.value.id;
      status := AcceptUploaded(c, run.slug, rel.value);
      Continued(old(trace), sent, trace);
      ReleaseJoined(c, run, Setting(toMoodle, mayAcknowledge, old(platformId)), Since(old(trace), sent), Since(sent, trace), status);
    }

    /** Uploads what the release builder makes of the run, if it says it is test content of this
        course. */
    method BuildAndUpload(c: string, run: Run) returns (uploaded: bool, answer: Option<Release>)
      requires Sound(terms, trace) && c !in terms.barred && Owned(terms, trace, c, run.slug)
      requires Classify(run) == KPackaged && run.autoAccepted
      modifies this`trace
      ensures Sound(terms, trace) && old(trace) <= trace && Quiet(old(trace), trace)
      ensures var es := Since(old(trace), trace);
              && |es| >= 2 && es[0] == SeePackaged(c, run) && es[1].Build? && es[1].code == c && es[1].slug == run.slug
              && uploaded == (es[1].meta.Some? && Lower(Strip(es[1].meta.value.catalogueCode)) == Lower(c) && es[1].meta.value.autoAccepted)
              && if uploaded then |es| == 3 && es[2] == Upload(c, run.slug, answer) else |es| == 2
    {
      answer := None;
      var meta := BuildRelease(c, run);
      assert Since(old(trace), trace) == [SeePackaged(c, run), Build(c, run.slug, meta)];
      if !meta.Some? || Lower(Strip(meta.value.catalogueCode)) != Lower(c) || !meta.value.autoAccepted {
        return false, answer;
      }
      uploaded, answer := true, *;
      Log(Upload(c, run.slug, answer));
    }

    method BuildRelease(c: string, run: Run) returns (meta: Option<Meta>)
      requires Sound(terms, trace) && Owned(terms, trace, c, run.slug)
      modifies this`trace
      ensures trace == old(trace) + [SeePackaged(c, run), Build(c, run.slug, meta)]
      ensures Sound(terms, trace) && Owned(terms, trace, c, run.slug) && Quiet(old(trace), trace)
    {
      Log(SeePackaged(c, run));
      meta := *;
      Log(Build(c, run.slug, meta));
    }

    /** Accepts a candidate, acknowledging its open actions only when allowed; then the course and
        the LMS. */
    method AcceptUploaded(c: string, slug: string, rel: Release) returns (status: Status)
      requires Sound(terms, trace) && c !in terms.barred && terms.mayAcknowledge == mayAcknowledge
      requires trace != [] && Last(trace) == Upload(c, slug, Some(rel))
      modifies this`trace, this`now, this`platformId
      ensures Sound(terms, trace) && old(trace) <= trace && Quiet(old(trace), trace)
      ensures UploadedStory(c, rel, Setting(toMoodle, mayAcknowledge, old(platformId)), Since(old(trace), trace), status)
      ensures status in {Accepted, Published, NeedsReview, Failed}
    {
      if !TestContent(rel, c) { return Failed; }
      var answer := rel;
      if rel.state == "candidate" {
        if rel.openActions != [] && !mayAcknowledge { return NeedsReview; }
        var said: Option<Release> := *;
        Log(Accept(c, rel.id, rel.openActions, said));
        if !said.Some? { return Failed; }
        answer := said.value;
      }
      if answer.state != "accepted" { return Failed; }
      ghost var sent := trace;
      status := AfterAcceptance(c, rel.id, answer.courseId);
      Continued(old(trace), sent, trace);
    }

    method AfterAcceptance(c: string, release: string, course: string) returns (status: Status)
      requires Sound(terms, trace) && c !in terms.barred
      requires CourseAccepted(trace, c, course) && ReleaseAccepted(trace, c, release)
      modifies this`trace, this`now, this`platformId
      ensures Sound(terms, trace) && old(trace) <= trace && Quiet(old(trace), trace)
      ensures AcceptedStory(c, release, course, Setting(toMoodle, mayAcknowledge, old(platformId)), Since(old(trace), trace), status)
      ensures status in {Accepted, Published, Failed}
    {
      var shown := CoursePublished(c, course);
      ghost var sent := trace;
      if !shown { return Failed; }
      if !toMoodle { return Accepted; }
      status := Publish(c, release);
      Continued(old(trace), sent, trace);
    }

    /** The TrueNorth course is published, or gets published. */
    method CoursePublished(c: string, course: string) returns (shown: bool)
      requires Sound(terms, trace) && c !in terms.barred && CourseAccepted(trace, c, course)
      modifies this`trace
      ensures Sound(terms, trace) && old(trace) <= trace && Quiet(old(trace), trace)
      ensures forall r :: ReleaseAccepted(old(trace), c, r) ==> ReleaseAccepted(trace, c, r)
      ensures var es := Since(old(trace), trace);
              && |es| >= 1 && es[0].ReadCourse? && es[0].code == c && es[0].course == course
              && if es[0].published != Some(false) then |es| == 1 && shown == es[0].published.Some?
                 else |es| == 2 && es[1] == PublishCourse(c, course, shown)
    {
      var published: Option<bool> := *;
      Log(ReadCourse(c, course, published));
      if !published.Some? { return false; }
      if published.value { return true; }
      shown := *;
      Log(PublishCourse(c, course, shown));
    }

    /** The tenant's Moodle: a publication, followed until it ends or the time is up. */
    method Publish(c: string, release: string) returns (status: Status)
      requires Sound(terms, trace) && c !in terms.barred && ReleaseAccepted(trace, c, release) && toMoodle
      modifies this`trace, this`now, this`platformId
      ensures Sound(terms, trace) && old(trace) <= trace && Quiet(old(trace), trace)
      ensures ShownStory(c, release, Setting(toMoodle, mayAcknowledge, old(platformId)), Since(old(trace), trace), status)
      ensures status == Published || status == Failed
    {
      var platform := FindPlatform(c, release);
      ghost var asked := trace;
      if !platform { return Failed; }
      status := Announce(c, release);
      Continued(old(trace), asked, trace);
    }

    method Announce(c: string, release: string) returns (status: Status)
      requires Sound(terms, trace) && c !in terms.barred && ReleaseAccepted(trace, c, release)
      modifies this`trace, this`now
      ensures Sound(terms, trace) && old(trace) <= trace && Quiet(old(trace), trace)
      ensures PublicationStory(c, release, Since(old(trace), trace), status)
      ensures status == Published || status == Failed
    {
      ghost var asked := trace;
      var state: Option<string> := *;
      Log(PublishRelease(c, release, state));
      if !state.Some? { return Failed; }
      status := FollowPublication(c, release, state.value, asked);
    }

    method FindPlatform(ghost c: string, ghost release: string) returns (found: bool)
      requires Sound(terms, trace) && ReleaseAccepted(trace, c, release)
      modifies this`trace, this`platformId
      ensures Sound(terms, trace) && old(trace) <= trace && Quiet(old(trace), trace) && ReleaseAccepted(trace, c, release)
      ensures var es := Since(old(trace), trace);
              if old(platformId).Some? && old(platformId).value != "" then es == [] && found
              else |es| == 1 && es[0].ListPlatforms? && found == (es[0].moodle.Some? && es[0].moodle.value != "")
      ensures found == PlatformKnown()
    {
      if PlatformKnown() { return true; }
      var moodle: Option<string> := *;
      Log(ListPlatforms(moodle));
      if moodle.Some? {
        platformId := moodle;
      }
      found := PlatformKnown();
    }

    /** Asked for again and again: it is given up only once the time is over. */
    method FollowPublication(c: string, ghost release: string, first: string, ghost asked: seq<Event>) returns (status: Status)
      requires Sound(terms, trace) && trace == asked + [PublishRelease(c, release, Some(first))]
      modifies this`trace, this`now
      ensures Sound(terms, trace) && old(trace) <= trace && Quiet(old(trace), trace)
      ensures PublicationStory(c, release, Since(asked, trace), status)
      ensures Ended(Known(Since(asked, trace))) || now >= old(now) + publishTimeout
      ensures status == Published || status == Failed
    {
      var state := first;
      var deadline := now + publishTimeout;
      while state != "published" && state != "failed" && state != "superseded"
        invariant Sound(terms, trace) && asked <= old(trace) <= trace && Quiet(old(trace), trace)
        invariant Polled(c, release, Since(asked, trace), state)
        decreases (deadline - now).Floor
      {
        if now >= deadline { return Failed; }
        Wait(10.0);
        ghost var before := Since(asked, trace);
        var answer: Option<string> := *;
        Log(ReadPublication(c, answer));
        PolledNext(c, release, before, state, answer);
        assert Since(asked, trace) == before + [ReadPublication(c, answer)];
        if answer.Some? { state := answer.value; }
      }
      status := if state == "published" then Published else Failed;
    }

    // ── queueing a run ─────────────────────────────────────────────────

    /** The state file, replaced as a whole. */
    method Save()
      requires Valid()
      modifies this`world, this`past
      ensures world == old(world).(file := if hasStateFile then tracks else old(world).file)
      ensures Valid() && old(past) <= past
    {
      if hasStateFile {
        world := world.(file := tracks);
        past := past + [world];
      }
    }

    /** POST /arc2/runs for a course no run is named after. It may land unseen; a slug that is
        answered is saved at once. */
    method Create(c: string)
      requires Valid() && c in tracks && tracks[c].status == Pending && !tracks[c].created
      requires Trimmed(c) ==> c !in world.studio
      requires |UnderWay(tracks)| < concurrency
      modifies this`tracks, this`trace, this`world, this`past
      ensures Valid() && SameBut(old(tracks), tracks, c)
      ensures old(trace) <= trace && old(past) <= past
      ensures forall d :: d != c ==> multiset(world.studio)[d] == multiset(old(world).studio)[d]
      ensures world.studio == old(world).studio || world.studio == old(world).studio + [c]
      ensures |trace| == |old(trace)| + 1 && Last(trace).QueueRun? && Last(trace).code == c
      ensures var answered := Last(trace).answered;
              tracks[c] == if answered.Some? && SlugOk(answered.value)
                           then old(tracks)[c].(slug := answered, created := true, status := Working)
                           else old(tracks)[c].(status := Failed)
      ensures tracks[c].status == Working && hasStateFile ==> c in world.file && world.file[c] == tracks[c]
    {
      Post(c);
      var slug: Option<string> := *;
      if slug.Some? && SlugOk(slug.value) {
        Adopt(c, slug.value);
      } else {
        Refuse(c, slug);
      }
    }

    /** The run answered is the driver's: the slug is the only proof, so it is saved at once. */
    method Adopt(c: string, slug: string)
      requires Valid() && c in tracks && tracks[c].status == Pending && SlugOk(slug)
      requires |UnderWay(tracks)| < concurrency
      modifies this`tracks, this`trace, this`world, this`past
      ensures Valid() && SameBut(old(tracks), tracks, c)
      ensures tracks[c] == old(tracks)[c].(slug := Some(slug), created := true, status := Working)
      ensures old(trace) <= trace && old(past) <= past && world.studio == old(world).studio
      ensures trace == old(trace) + [QueueRun(c, Some(slug))]
      ensures hasStateFile ==> c in world.file && world.file[c] == tracks[c]
    {
      assert TrackOk(c, tracks[c]) && RetriesOk(c, tracks[c]);
      Log(QueueRun(c, Some(slug)));
      tracks := tracks[c := tracks[c].(slug := Some(slug), created := true, status := Working)];
      QueuedStaysValid(c);
      Save();
    }

    method Refuse(c: string, answered: Option<string>)
      requires Valid() && c in tracks && tracks[c].status == Pending && !tracks[c].created
      requires answered.Some? ==> !SlugOk(answered.value)
      requires |UnderWay(tracks)| < concurrency
      modifies this`tracks, this`trace
      ensures Valid() && SameBut(old(tracks), tracks, c) && tracks[c] == old(tracks)[c].(status := Failed)
      ensures trace == old(trace) + [QueueRun(c, answered)]
    {
      assert TrackOk(c, tracks[c]) && RetriesOk(c, tracks[c]);
      Log(QueueRun(c, answered));
      Set(c, Failed);
      QueuedStaysValid(c);
    }

    /** The request reaches the Studio, or does not. */
    method Post(c: string)
      requires Valid() && (Trimmed(c) ==> c !in world.studio)
      modifies this`world, this`past
      ensures Valid() && old(past) <= past
      ensures forall d :: d != c ==> multiset(world.studio)[d] == multiset(old(world).studio)[d]
      ensures world.studio == old(world).studio || world.studio == old(world).studio + [c]
    {
      var landed: bool := *;
      if landed {
        world := world.(studio := world.studio + [c]);
        past := past + [world];
      }
    }

    twostate lemma QueuedStaysValid(c: string)
      requires old(Valid()) && c in old(tracks) && c in start && c in tracks && tracks == old(tracks)[c := tracks[c]]
      requires Sound(terms, trace) && PastOk()
      requires forall d, s :: Queued(old(trace), d, s) ==> Queued(trace, d, s)
      requires forall d :: Retries(trace, d) == Retries(old(trace), d)
      requires TrackOk(c, tracks[c]) && RetriesOk(c, tracks[c])
      requires |UnderWay(old(tracks))| < concurrency
      ensures Valid()
    {
      forall d | d in tracks ensures TrackOk(d, tracks[d]) && RetriesOk(d, tracks[d]) {
        if d != c {
          assert old(TrackOk(d, tracks[d]) && RetriesOk(d, tracks[d]));
        }
      }
      var busy := UnderWay(old(tracks));
      assert OwnBusy() <= busy + {c};
      SubsetSize(OwnBusy(), busy + {c});
    }

    // ── one pass over every course ─────────────────────────────────────

    /** GET /arc2/runs: it shows at least every run ever queued for a batch, in whatever state;
        None when the Studio is unavailable. */
    method ListRunsNow() returns (runs: Option<seq<Run>>)
      requires Valid()
      modifies this`trace, this`lists
      ensures Valid() && trace == old(trace) + [ListRuns(runs)] && lists == old(lists) + 1
      ensures runs.Some? ==> forall n :: n in world.studio ==> HasName(runs.value, n)
    {
      runs := *;
      if runs.Some? {
        var all := runs.value;
        for i := 0 to |world.studio|
          invariant forall k :: 0 <= k < i ==> HasName(all, world.studio[k])
        {
          var r: Run := *;
          all := WithName(all, r, world.studio[i]);
        }
        runs := Some(all);
        assert forall n :: n in world.studio ==> HasName(all, n);
      }
      Log(ListRuns(runs));
      lists := lists + 1;
      ListingStaysValid();
    }

    twostate lemma ListingStaysValid()
      requires old(Valid()) && tracks == old(tracks) && world == old(world) && past == old(past)
      requires Sound(terms, trace) && (forall d, s :: Queued(old(trace), d, s) ==> Queued(trace, d, s))
      requires forall d :: Retries(trace, d) == Retries(old(trace), d)
      ensures Valid()
    {
      forall d | d in tracks ensures TrackOk(d, tracks[d]) && RetriesOk(d, tracks[d]) {
        assert old(TrackOk(d, tracks[d]) && RetriesOk(d, tracks[d]));
      }
      assert OwnBusy() == old(OwnBusy());
    }

    /** The listed run of the track, the last of that slug. */
    function Listed(runs: seq<Run>, slug: string): (r: Option<Run>)
      ensures r.None? <==> forall x :: x in runs ==> x.slug != slug
      ensures r.Some? ==> exists i :: LastOf(runs, slug, i) && runs[i] == r.value
    {
      if runs == [] then None
      else
        var n := |runs| - 1;
        if runs[n].slug == slug then assert LastOf(runs, slug, n); Some(runs[n])
        else
          assert forall i :: LastOf(runs[..n], slug, i) ==> LastOf(runs, slug, i);
          Listed(runs[..n], slug)
    }

    predicate LastOf(runs: seq<Run>, slug: string, i: int) {
      0 <= i < |runs| && runs[i].slug == slug && forall j :: i < j < |runs| ==> runs[j].slug != slug
    }

    /** One course of a pass. */
    method Pass(c: string, runs: seq<Run>, at: real)
      requires Valid() && c in tracks
      requires Trimmed(c) && c in world.studio ==> HasName(runs, c)
      modifies this`tracks, this`trace, this`world, this`past, this`now, this`platformId
      ensures Valid() && old(trace) <= trace && old(past) <= past
      ensures PassStory(c, old(tracks), tracks, runs, at, old(platformId), Since(old(trace), trace))
      ensures forall d :: d != c ==> multiset(world.studio)[d] == multiset(old(world).studio)[d]
    {
      if Terminal(tracks[c].status) { return; }
      if tracks[c].status == Pending && !tracks[c].created {
        PassNew(c, runs);
        return;
      }
      PassCreated(c, runs, at);
    }

    /** A resumed course is taken up in its first pass. */
    method PassCreated(c: string, runs: seq<Run>, at: real)
      requires Valid() && c in tracks && (Busy(tracks[c]) || (tracks[c].status == Pending && tracks[c].created))
      modifies this`tracks, this`trace, this`now, this`platformId
      ensures Valid() && SameBut(old(tracks), tracks, c) && old(trace) <= trace
      ensures var t := old(tracks)[c];
              if t.status == Waiting then WaitStory(c, t, tracks[c], at, Since(old(trace), trace))
              else WorkStory(c, t.(status := Working), tracks[c], runs, at, old(platformId), Since(old(trace), trace))
    {
      if tracks[c].status == Pending {
        Follow(c);
      }
      PassUnderWay(c, runs, at);
    }

    /** A waiting course is retried once its time has come. */
    method PassWaiting(c: string, at: real)
      requires Valid() && c in tracks && tracks[c].status == Waiting
      modifies this`tracks, this`trace
      ensures Valid() && SameBut(old(tracks), tracks, c) && old(trace) <= trace
      ensures WaitStory(c, old(tracks)[c], tracks[c], at, Since(old(trace), trace))
    {
      assert TrackOk(c, tracks[c]);
      var due := tracks[c].nextRetryAt;
      if due.Some? && at < due.value as real { return; }
      var answer: int := *;
      Retry(c, answer);
      assert Since(old(trace), trace) == [RetryRun(c, old(tracks)[c].slug.value, answer)];
    }

    /** A waiting course is retried; a working one follows its run, once the list shows it. */
    method PassUnderWay(c: string, runs: seq<Run>, at: real)
      requires Valid() && c in tracks && Busy(tracks[c])
      modifies this`tracks, this`trace, this`now, this`platformId
      ensures Valid() && SameBut(old(tracks), tracks, c) && old(trace) <= trace
      ensures if old(tracks)[c].status == Waiting then WaitStory(c, old(tracks)[c], tracks[c], at, Since(old(trace), trace))
              else WorkStory(c, old(tracks)[c], tracks[c], runs, at, old(platformId), Since(old(trace), trace))
    {
      assert TrackOk(c, tracks[c]);
      if tracks[c].status == Waiting {
        PassWaiting(c, at);
        return;
      }
      var run := Listed(runs, tracks[c].slug.value);
      if run.Some? {
        Advance(c, run.value, at);
      }
    }

    /** A course without a run of its own: refused when a run of that name exists, queued when
        there is room. */
    method PassNew(c: string, runs: seq<Run>)
      requires Valid() && c in tracks && tracks[c].status == Pending && !tracks[c].created
      requires Trimmed(c) && c in world.studio ==> HasName(runs, c)
      modifies this`tracks, this`trace, this`world, this`past
      ensures Valid() && SameBut(old(tracks), tracks, c)
      ensures old(trace) <= trace && old(past) <= past
      ensures NewStory(c, old(tracks)[c], tracks[c], runs, |UnderWay(old(tracks))|, Since(old(trace), trace))
      ensures world.studio == old(world).studio || world.studio == old(world).studio + [c]
      ensures forall d :: d != c ==> multiset(world.studio)[d] == multiset(old(world).studio)[d]
    {
      var busy := set d | d in tracks && Busy(tracks[d]);
      assert busy == UnderWay(tracks);
      var decision := Decide(runs, c, |busy|, concurrency);
      if decision == TurnDown {
        Fail(c);
        return;
      }
      assert Trimmed(c) ==> c !in world.studio by {
        if Trimmed(c) && c in world.studio {
          var r :| r in runs && r.name == c;
          OwnRunIsNamedAfter(r, c);
        }
      }
      if decision == Queue {
        Create(c);
      }
    }

    method Fail(c: string)
      requires Valid() && c in tracks && tracks[c].status == Pending
      modifies this`tracks
      ensures Valid() && SameBut(old(tracks), tracks, c) && tracks[c] == old(tracks)[c].(status := Failed)
    {
      assert TrackOk(c, tracks[c]) && RetriesOk(c, tracks[c]);
      Set(c, Failed);
      StillValid(c);
    }

    /** A resumed course follows the run it had queued, whatever the concurrency. */
    method Follow(c: string)
      requires Valid() && c in tracks && tracks[c].status == Pending && tracks[c].created
      modifies this`tracks
      ensures Valid() && tracks == old(tracks)[c := old(tracks)[c].(status := Working)]
    {
      assert TrackOk(c, tracks[c]) && RetriesOk(c, tracks[c]);
      Set(c, Working);
      StillValid(c);
    }

    /** One pass over every course; true when every course is finished. Available when the runs were
        listed, and then every course has had its turn. */
    method Step() returns (available: bool, finished: bool, ghost runs: Option<seq<Run>>, ghost log: seq<Turn>)
      requires Valid()
      modifies this
      ensures Valid() && old(past) <= past && lists == old(lists) + 1
      ensures old(trace) + [ListRuns(runs)] <= trace && available == runs.Some?
      ensures !available ==> tracks == old(tracks) && world == old(world) && trace == old(trace) + [ListRuns(None)] && !finished
      ensures available ==>
                && PassedAll(log, old(tracks), tracks, runs.value, old(now))
                && Since(old(trace) + [ListRuns(runs)], trace) == Flatten(log)
                && (hasStateFile ==> world.file == tracks)
                && (finished <==> AllEnded(tracks))
      ensures TerminalKept(old(tracks), tracks)
    {
      finished, log := false, [];
      var listed := ListRunsNow();
      available, runs := listed.Some?, listed;
      if !available { return; }
      finished, log := PassAndSave(listed.value);
    }

    method PassAndSave(runs: seq<Run>) returns (finished: bool, ghost log: seq<Turn>)
      requires Valid() && forall n :: n in world.studio ==> HasName(runs, n)
      modifies this`tracks, this`trace, this`world, this`past, this`now, this`platformId
      ensures Valid() && old(trace) <= trace && old(past) <= past
      ensures PassedAll(log, old(tracks), tracks, runs, old(now)) && Since(old(trace), trace) == Flatten(log)
      ensures TerminalKept(old(tracks), tracks)
      ensures hasStateFile ==> world.file == tracks
      ensures finished <==> AllEnded(tracks)
    {
      log := PassAll(runs);
      finished := SaveAndLook();
    }

    method SaveAndLook() returns (finished: bool)
      requires Valid()
      modifies this`world, this`past
      ensures Valid() && old(past) <= past && (hasStateFile ==> world.file == tracks)
      ensures finished <==> AllEnded(tracks)
    {
      Save();
      finished := forall c :: c in tracks ==> Terminal(tracks[c].status);
    }

    /** Every course had its turn, in order: the tracks were handed on from turn to turn, and each
        course's own was as the pass found it and is as its turn left it. */
    ghost predicate PassedAll(log: seq<Turn>, before: map<string, Track>, after: map<string, Track>, runs: seq<Run>, at: real)
    {
      && |log| == |order| && Chained(log, before, after)
      && forall i :: 0 <= i < |log| ==> TurnOk(log[i], order[i], before, after, runs, at)
    }

    ghost predicate TurnOk(turn: Turn, c: string, before: map<string, Track>, after: map<string, Track>, runs: seq<Run>, at: real)
    {
      && PassStory(c, turn.before, turn.after, runs, at, turn.platform, turn.events)
      && c in before && turn.before[c] == before[c] && c in after && turn.after[c] == after[c]
    }

    method PassAll(runs: seq<Run>) returns (ghost log: seq<Turn>)
      requires Valid() && forall n :: n in world.studio ==> HasName(runs, n)
      modifies this`tracks, this`trace, this`world, this`past, this`now, this`platformId
      ensures Valid() && old(trace) <= trace && old(past) <= past
      ensures PassedAll(log, old(tracks), tracks, runs, old(now)) && Since(old(trace), trace) == Flatten(log)
      ensures TerminalKept(old(tracks), tracks)
    {
      var at := now;
      ghost var listed, before, told := world.studio, tracks, trace;
      log := [];
      for i := 0 to |order|
        invariant Valid() && told <= trace && old(past) <= past
        invariant SoFar(log, i, before, tracks, runs, at) && Since(told, trace) == Flatten(log)
        invariant forall k :: i <= k < |order| ==> multiset(world.studio)[order[k]] == multiset(listed)[order[k]]
      {
        var c := order[i];
        assert c in order;
        assert c in world.studio <==> multiset(world.studio)[c] > 0;
        assert c in listed <==> multiset(listed)[c] > 0;
        ghost var tracks0, trace0, known := tracks, trace, platformId;
        Pass(c, runs, at);
        ghost var turn := Turn(tracks0, tracks, known, Since(trace0, trace));
        NextTurn(log, turn, i, before, runs, at);
        Continued(told, trace0, trace);
        FlattenAppend(log, turn);
        log := log + [turn];
      }
      AllHadTurns(log, before, tracks, runs, at);
    }

    /** The first i courses had their turn, the others are as they were. */
    ghost predicate SoFar(log: seq<Turn>, i: nat, before: map<string, Track>, after: map<string, Track>, runs: seq<Run>, at: real) {
      && i <= |order| && |log| == i && Chained(log, before, after) && after.Keys == before.Keys
      && (forall k :: 0 <= k < i ==> TurnOk(log[k], order[k], before, after, runs, at))
      && (forall k :: i <= k < |order| ==> order[k] in before && after[order[k]] == before[order[k]])
    }

    ghost predicate OrderIsApart() {
      forall i, j :: 0 <= i < j < |order| ==> order[i] != order[j]
    }

    lemma NextTurn(log: seq<Turn>, turn: Turn, i: nat, before: map<string, Track>, runs: seq<Run>, at: real)
      requires OrderIsApart() && i < |order| && SoFar(log, i, before, turn.before, runs, at)
      requires PassStory(order[i], turn.before, turn.after, runs, at, turn.platform, turn.events)
      ensures SoFar(log + [turn], i + 1, before, turn.after, runs, at)
    {
      var more := log + [turn];
      assert more[..i] == log;
      forall k | 0 <= k < i + 1 ensures TurnOk(more[k], order[k], before, turn.after, runs, at) {
        if k < i {
          assert TurnOk(log[k], order[k], before, turn.before, runs, at);
          assert order[k] != order[i];
        }
      }
    }

    lemma AllHadTurns(log: seq<Turn>, before: map<string, Track>, after: map<string, Track>, runs: seq<Run>, at: real)
      requires SoFar(log, |order|, before, after, runs, at)
      requires forall c :: c in before ==> c in order
      ensures PassedAll(log, before, after, runs, at) && TerminalKept(before, after)
    {
      forall c | c in before && Terminal(before[c].status) ensures after[c] == before[c] {
        var k :| 0 <= k < |order| && order[k] == c;
        assert TurnOk(log[k], order[k], before, after, runs, at);
        assert PassStory(c, log[k].before, log[k].after, runs, at, log[k].platform, log[k].events);
      }
    }

    /** How many courses are under way: those of the driver's own queueing within the
        concurrency, and any it resumed. */
    lemma UnderWayIsBounded()
      requires Valid()
      ensures |UnderWay(tracks)| <= concurrency + |terms.resumed|
    {
      var busy := UnderWay(tracks);
      assert busy <= OwnBusy() + terms.resumed.Keys;
      SubsetSize(busy, OwnBusy() + terms.resumed.Keys);
      assert |OwnBusy() + terms.resumed.Keys| <= |OwnBusy()| + |terms.resumed.Keys|;
      assert |terms.resumed.Keys| == |terms.resumed|;
    }

    /** The retries of one process for one course are some its attempts allow. */
    lemma RetriesAreBounded(c: string)
      requires Valid() && c in tracks
      ensures CanRetry(start[c].status == Waiting, start[c].attempts, maxAttempts, Retries(trace, c))
    {
      assert RetriesOk(c, tracks[c]);
      MostRetriesIsMost(start[c].status == Waiting, start[c].attempts, maxAttempts, Retries(trace, c));
    }

    /** With a state file the driver wrote: no more than the maximum, unless the course was resumed
        waiting and the maximum is not even one. */
    lemma RetriesAreWithinTheMaximum(c: string)
      requires Valid() && c in tracks && FileOk(past[0].file)
      requires start[c].status == Waiting ==> maxAttempts >= 1
      ensures Retries(trace, c) <= Max(maxAttempts, 0)
    {
      RetriesAreBounded(c);
      WithinTheMaximumIff(start[c].status == Waiting, start[c].attempts, maxAttempts);
    }

    /** All of them are sent when every retry is accepted and the job keeps failing. */
    method Exhaust(c: string, run: Run, at: real)
      requires Valid() && c in tracks && Busy(tracks[c]) && tracks[c].slug == Some(run.slug) && Classify(run) == KRetry
      modifies this`tracks, this`trace, this`now, this`platformId
      ensures Valid() && c in tracks && tracks[c].status == Failed
      ensures Retries(trace, c) == Retries(old(trace), c)
                                   + MostRetries(old(tracks)[c].status == Waiting, old(tracks)[c].attempts, maxAttempts)
    {
      while tracks[c].status != Failed
        invariant Valid() && c in tracks && tracks[c].slug == Some(run.slug) && (Busy(tracks[c]) || tracks[c].status == Failed)
        invariant Retries(trace, c) + Left(tracks[c]) == Retries(old(trace), c) + Left(old(tracks)[c])
        decreases if tracks[c].status == Failed then 0 else 1, Max(maxAttempts - tracks[c].attempts, 0),
                  if tracks[c].status == Waiting then 1 else 0
      {
        Again(c, run, at);
      }
    }

    /** How many retries may still follow. */
    ghost function Left(t: Track): nat {
      if Busy(t) then MostRetries(t.status == Waiting, t.attempts, maxAttempts) else 0
    }

    method Again(c: string, run: Run, at: real)
      requires Valid() && c in tracks && Busy(tracks[c]) && tracks[c].slug == Some(run.slug) && Classify(run) == KRetry
      modifies this`tracks, this`trace, this`now, this`platformId
      ensures Valid() && c in tracks && tracks[c].slug == old(tracks)[c].slug
      ensures Retries(trace, c) + Left(tracks[c]) == Retries(old(trace), c) + Left(old(tracks)[c])
      ensures if old(tracks)[c].status == Waiting
              then tracks[c].status == Working && tracks[c].attempts == old(tracks)[c].attempts
              else tracks[c].attempts == old(tracks)[c].attempts + 1
                   && tracks[c].status == if tracks[c].attempts > maxAttempts then Failed else Waiting
    {
      if tracks[c].status == Waiting {
        Retry(c, 200);
        assert trace[..|trace| - 1] == old(trace);
      } else {
        FailAgain(c, run, at);
      }
    }

    method FailAgain(c: string, run: Run, at: real)
      requires Valid() && c in tracks && tracks[c].status == Working && tracks[c].slug == Some(run.slug) && Classify(run) == KRetry
      modifies this`tracks, this`trace, this`now, this`platformId
      ensures Valid() && c in tracks && trace == old(trace) && tracks[c].slug == old(tracks)[c].slug
      ensures tracks[c].attempts == old(tracks)[c].attempts + 1
      ensures tracks[c].status == if tracks[c].attempts > maxAttempts then Failed else Waiting
    {
      Advance(c, run, at);
      assert trace == old(trace) + Since(old(trace), trace);
    }

    /** A course the process must not touch causes no changing request. */
    lemma BarredCoursesAreLeftAlone(c: string, j: nat)
      requires Valid() && c in terms.barred && j < |trace| && IsWrite(trace[j])
      ensures trace[j].code != c
    {
      SoundEverywhere(terms, trace, j);
    }

    /** The batch runs only on a test host; elsewhere it sends nothing at all. It goes on, pass after
        pass, until every course is finished or the runs cannot be listed. */
    method RunFor(passes: nat) returns (allowed: bool, finished: bool, available: bool, ghost rounds: seq<Round>)
      requires Valid()
      modifies this
      ensures Valid() && allowed == testHost
      ensures !testHost ==> trace == old(trace) && world == old(world) && tracks == old(tracks) && lists == old(lists)
      ensures testHost ==>
                && lists == old(lists) + |rounds| + (if available then 0 else 1) && Rounds(rounds, old(tracks), tracks)
                && lists <= old(lists) + passes && (lists < old(lists) + passes ==> finished || !available)
                && (finished ==> AllEnded(tracks))
                && (!available ==> trace != [] && Last(trace) == ListRuns(None))
      ensures old(past) <= past && TerminalKept(old(tracks), tracks)
    {
      allowed, finished, available, rounds := testHost, false, true, [];
      if !testHost { return; }
      finished, available, rounds := RunPasses(passes);
    }

    method RunPasses(passes: nat) returns (finished: bool, available: bool, ghost rounds: seq<Round>)
      requires Valid()
      modifies this
      ensures Valid() && old(past) <= past && TerminalKept(old(tracks), tracks)
      ensures lists == old(lists) + |rounds| + (if available then 0 else 1) && Rounds(rounds, old(tracks), tracks)
      ensures lists <= old(lists) + passes && (lists < old(lists) + passes ==> finished || !available)
      ensures finished ==> AllEnded(tracks)
      ensures !available ==> trace != [] && Last(trace) == ListRuns(None)
    {
      finished, available, rounds := false, true, [];
      for n := 0 to passes
        invariant Valid() && old(past) <= past && !finished && available && lists == old(lists) + n && |rounds| == n
        invariant TerminalKept(old(tracks), tracks) && Rounds(rounds, old(tracks), tracks)
      {
        available, finished, rounds := StepOn(rounds, old(tracks));
        if !available || finished { return; }
        TimePasses();
      }
    }

    /** One pass more. */
    method StepOn(ghost rounds: seq<Round>, ghost first: map<string, Track>)
      returns (available: bool, finished: bool, ghost more: seq<Round>)
      requires Valid() && Rounds(rounds, first, tracks)
      modifies this
      ensures Valid() && old(past) <= past && lists == old(lists) + 1 && TerminalKept(old(tracks), tracks)
      ensures |more| == |rounds| + (if available then 1 else 0) && Rounds(more, first, tracks)
      ensures finished ==> available && AllEnded(tracks)
      ensures !available ==> trace != [] && Last(trace) == ListRuns(None)
    {
      ghost var runs, log;
      ghost var before, at := tracks, now;
      available, finished, runs, log := Step();
      more := rounds;
      if available {
        var round := Round(before, tracks, runs.value, at, log);
        RoundAdded(rounds, round, first);
        more := rounds + [round];
      }
    }

    lemma RoundAdded(rounds: seq<Round>, round: Round, first: map<string, Track>)
      requires Rounds(rounds, first, round.before) && RoundOk(round)
      ensures Rounds(rounds + [round], first, round.after)
    {
      assert (rounds + [round])[..|rounds|] == rounds;
    }

    /** Passes, each of them over every course and from where the one before it ended. */
    ghost predicate Rounds(rounds: seq<Round>, before: map<string, Track>, after: map<string, Track>) {
      && HandedOn(rounds, before, after)
      && forall i :: 0 <= i < |rounds| ==> RoundOk(rounds[i])
    }

    ghost predicate RoundOk(r: Round) {
      PassedAll(r.log, r.before, r.after, r.runs, r.at)
    }

    /** The dry run: one GET, and every course that is not skipped is marked planned. */
    method Plan() returns (available: bool)
      requires Valid()
      modifies this`trace, this`tracks, this`lists
      ensures Valid() && tracks.Keys == old(tracks).Keys
      ensures |trace| == |old(trace)| + 1 && old(trace) <= trace && Last(trace).ListRuns? && available == Last(trace).runs.Some?
      ensures !available ==> tracks == old(tracks)
      ensures available ==> forall c :: c in tracks ==>
                tracks[c] == if old(tracks)[c].status == Skipped then old(tracks)[c] else old(tracks)[c].(status := Planned)
    {
      var runs := ListRunsNow();
      available := runs.Some?;
      if !available { return; }
      tracks := map c | c in tracks :: MarkedPlanned(tracks[c]);
      PlannedStaysValid();
    }

    function MarkedPlanned(t: Track): Track {
      if t.status == Skipped then t else t.(status := Planned)
    }

    twostate lemma PlannedStaysValid()
      requires Codes() && Sound(terms, trace) && past == old(past) && world == old(world)
      requires PastOk()
      requires old(Valid()) && |trace| == |old(trace)| + 1 && old(trace) <= trace && Last(trace).ListRuns? && tracks.Keys == old(tracks).Keys
      requires forall c :: c in tracks ==> tracks[c] == MarkedPlanned(old(tracks)[c])
      ensures Valid()
    {
      assert trace == old(trace) + [Last(trace)];
      Appended(terms, old(trace), Last(trace));
      forall c | c in tracks ensures TrackOk(c, tracks[c]) && RetriesOk(c, tracks[c]) {
        assert old(TrackOk(c, tracks[c]) && RetriesOk(c, tracks[c]));
      }
      assert OwnBusy() == {};
    }

    method TimePasses()
      requires Valid()
      modifies this`now
      ensures Valid()
    {
      now := *;
    }

    /** Sleeping takes at least as long as asked. */
    method Wait(seconds: real)
      requires seconds >= 0.0
      modifies this`now
      ensures now >= old(now) + seconds
    {
      var more: real := *;
      now := now + seconds + if more >= 0.0 then more else 0.0;
    }
  }

  ghost function StartTerms(tracks: map<string, Track>, ack: bool): Terms {
    Terms(map c | c in tracks && tracks[c].created && tracks[c].slug.Some? :: tracks[c].slug.value,
          (set c | c in tracks && tracks[c].status == Skipped), ack)
  }

  /** The codes in the order they first come. */
  function InOrder(courses: seq<Course>): (codes: seq<string>)
    ensures forall i, j :: 0 <= i < j < |codes| ==> codes[i] != codes[j]
  {
    if courses == [] then []
    else
      var before := InOrder(courses[..|courses| - 1]);
      var code := courses[|courses| - 1].code;
      if code in before then before else before + [code]
  }

  /** Every code once, and a course more only ever adds its code at the end. */
  lemma {:induction false} InOrderMeans(courses: seq<Course>, k: nat)
    requires k <= |courses|
    ensures InOrder(courses[..k]) <= InOrder(courses)
    ensures forall c :: c in InOrder(courses) <==> exists i :: 0 <= i < |courses| && courses[i].code == c
    ensures forall i, j :: 0 <= i < j < |InOrder(courses)| ==> InOrder(courses)[i] != InOrder(courses)[j]
  {
    var n := |courses| - 1;
    if n >= 0 {
      InOrderMeans(courses[..n], if k <= n then k else n);
      if k <= n { assert courses[..n][..k] == courses[..k]; } else { assert courses[..k] == courses; }
      assert courses[n].code in InOrder(courses);
      assert InOrder(courses[..n]) <= InOrder(courses);
    }
  }

  /** One track a code; of courses sharing one, the last counts. */
  function MakeTracks(courses: seq<Course>, saved: map<string, Track>, includeHeld: bool): map<string, Track> {
    if courses == [] then map[]
    else
      var course := courses[|courses| - 1];
      MakeTracks(courses[..|courses| - 1], saved, includeHeld)[course.code := Resumed(course, saved, includeHeld)]
  }

  /** What a fresh or resumed track can be. */
  ghost predicate StartTrack(t: Track) {
    && (t.created <==> t.slug.Some?)
    && (t.status == Pending || t.status == Skipped || (t.status == Waiting && t.created))
  }

  /** No later course has the code: it is the one that counts. */
  ghost predicate LastOfItsCode(courses: seq<Course>, i: nat) {
    i < |courses| && forall j :: i < j < |courses| ==> courses[j].code != courses[i].code
  }

  lemma {:induction false} LastCounts(courses: seq<Course>, i: nat, saved: map<string, Track>, includeHeld: bool)
    requires LastOfItsCode(courses, i)
    ensures courses[i].code in MakeTracks(courses, saved, includeHeld)
    ensures MakeTracks(courses, saved, includeHeld)[courses[i].code] == Resumed(courses[i], saved, includeHeld)
  {
    var n := |courses| - 1;
    if i < n {
      LastCounts(courses[..n], i, saved, includeHeld);
    }
  }

  /** Drafts to keep, and courses held for a cleared author unless included, start skipped; of
      courses sharing a code, the last counts. */
  lemma SkippedFromTheStart(courses: seq<Course>, i: nat, saved: map<string, Track>, includeHeld: bool)
    requires LastOfItsCode(courses, i)
    ensures var c, tracks := courses[i], MakeTracks(courses, saved, includeHeld);
            c.code in tracks && (tracks[c.code].status == Skipped <==> (c.held && !includeHeld) || c.code == "C105")
  {
    LastCounts(courses, i, saved, includeHeld);
  }

  lemma {:induction false} MadeTracksOk(courses: seq<Course>, saved: map<string, Track>, includeHeld: bool)
    requires FileOk(saved)
    ensures FileOk(MakeTracks(courses, saved, includeHeld))
  {
    if courses != [] {
      MadeTracksOk(courses[..|courses| - 1], saved, includeHeld);
    }
  }

  // ── how many retries ─────────────────────────────────────────────────

  /** Whether n retries can be sent: one whenever the course waits, and it waits again after each
      failure until the attempts exceed the maximum. */
  ghost predicate CanRetry(waiting: bool, attempts: int, maxAttempts: int, n: nat)
    decreases Max(maxAttempts - attempts, 0), n, if waiting then 1 else 0
  {
    || n == 0
    || (waiting && CanRetry(false, attempts, maxAttempts, n - 1))
    || (!waiting && attempts < maxAttempts && CanRetry(true, attempts + 1, maxAttempts, n))
  }

  function MostRetries(waiting: bool, attempts: int, maxAttempts: int): nat {
    (if waiting then 1 else 0) + Max(maxAttempts - attempts, 0)
  }

  lemma {:induction false} MostRetriesIsMost(waiting: bool, attempts: int, maxAttempts: int, n: nat)
    ensures CanRetry(waiting, attempts, maxAttempts, n) <==> n <= MostRetries(waiting, attempts, maxAttempts)
    decreases Max(maxAttempts - attempts, 0), n, if waiting then 1 else 0
  {
    if n > 0 {
      if waiting {
        MostRetriesIsMost(false, attempts, maxAttempts, n - 1);
      } else if attempts < maxAttempts {
        MostRetriesIsMost(true, attempts + 1, maxAttempts, n);
      }
    }
  }

  ghost predicate NeverMore(waiting: bool, attempts: int, maxAttempts: int) {
    forall n: nat :: CanRetry(waiting, attempts, maxAttempts, n) ==> n <= Max(maxAttempts, 0)
  }

  /** A process can never send more retries than the maximum if and only if it does not resume the
      course waiting, or the maximum is at least one. */
  lemma WithinTheMaximumIff(waiting: bool, attempts: int, maxAttempts: int)
    requires 0 <= attempts && (waiting ==> 1 <= attempts)
    ensures NeverMore(waiting, attempts, maxAttempts) <==> (waiting ==> maxAttempts >= 1)
  {
    var most := MostRetries(waiting, attempts, maxAttempts);
    MostRetriesIsMost(waiting, attempts, maxAttempts, most);
    assert NeverMore(waiting, attempts, maxAttempts) ==> most <= Max(maxAttempts, 0);
    if waiting ==> maxAttempts >= 1 {
      forall n: nat | CanRetry(waiting, attempts, maxAttempts, n) ensures n <= Max(maxAttempts, 0) {
        MostRetriesIsMost(waiting, attempts, maxAttempts, n);
      }
    }
  }

  /** A course saved waiting, resumed with a maximum of zero or less: the retry is sent all the same. */
  method RetryDespiteTheMaximum(course: Course, maxAttempts: int, world: World, runs: seq<Run>, at: real) returns (d: Driver)
    requires OneRunEach(world) && FileOk(world.file) && maxAttempts <= 0 && !course.held && course.code !in KEEP_DRAFT
    requires course.code in world.file
    requires var t := world.file[course.code];
             t.status == Waiting && t.created && t.slug.Some? && t.slug.value != ""
             && (t.nextRetryAt.Some? ==> at >= t.nextRetryAt.value as real)
    ensures d.Valid() && d.maxAttempts == maxAttempts
    ensures Retries(d.trace, course.code) == 1 > Max(d.maxAttempts, 0)
  {
    d := new Driver([course], 1, maxAttempts, false, None, false, true, true, false, 300.0, 7200.0, 1800.0, 1800.0,
                    (error: string, now: real) => None, world, true, at);
    LastCounts([course], 0, world.file, false);
    d.PassUnderWay(course.code, runs, at);
    assert d.trace[..0] == [];
  }

  lemma ResumedIsStart(course: Course, saved: map<string, Track>, includeHeld: bool)
    ensures StartTrack(Resumed(course, saved, includeHeld))
  {
  }

  lemma {:induction false} MadeTracks(courses: seq<Course>, saved: map<string, Track>, includeHeld: bool)
    ensures forall c :: c in MakeTracks(courses, saved, includeHeld) ==> StartTrack(MakeTracks(courses, saved, includeHeld)[c])
    ensures forall c :: c in MakeTracks(courses, saved, includeHeld) <==> c in InOrder(courses)
  {
    if courses != [] {
      var n := |courses| - 1;
      var front := MakeTracks(courses[..n], saved, includeHeld);
      var t := Resumed(courses[n], saved, includeHeld);
      MadeTracks(courses[..n], saved, includeHeld);
      ResumedIsStart(courses[n], saved, includeHeld);
      assert MakeTracks(courses, saved, includeHeld) == front[courses[n].code := t];
    }
  }

  // ── a slug that was lost ─────────────────────────────────────────────

  /** The list holds the runs the batch queued and no other. */
  ghost predicate Shows(runs: seq<Run>, w: World) {
    |runs| == |w.studio| && forall i :: 0 <= i < |runs| ==> runs[i].name == w.studio[i]
  }

  /** A process resumed from `w` queues a run for the course, and dies before its slug is saved. */
  ghost predicate DiesUnsaved(w: World, course: Course, next: World) {
    && Resumed(course, w.file, false).status == Pending && !Resumed(course, w.file, false).created
    && (exists runs :: Shows(runs, w) && Decide(runs, course.code, 0, 1) == Queue)
    && next == World(w.studio + [course.code], w.file)
  }

  /** After a slug was lost, the next process queues a second run for the course if and only if
      its code has white space around it. */
  lemma SecondRunIff(w: World, course: Course)
    requires course.code in w.studio
    requires Resumed(course, w.file, false).status == Pending && !Resumed(course, w.file, false).created
    ensures (exists next :: DiesUnsaved(w, course, next)) <==> !Trimmed(course.code)
  {
    if Trimmed(course.code) {
      forall runs | Shows(runs, w) ensures Decide(runs, course.code, 0, 1) == TurnDown {
        var i :| 0 <= i < |w.studio| && w.studio[i] == course.code;
        OwnRunIsNamedAfter(runs[i], course.code);
        assert runs[i] in runs;
      }
    } else {
      NothingIsRecognised(w, course);
      assert DiesUnsaved(w, course, World(w.studio + [course.code], w.file));
    }
  }

  lemma NothingIsRecognised(w: World, course: Course)
    requires !Trimmed(course.code)
    ensures exists runs :: Shows(runs, w) && Decide(runs, course.code, 0, 1) == Queue
  {
    var blank := Run("", "", "", "", "", false, false);
    var runs := seq(|w.studio|, i requires 0 <= i < |w.studio| => blank.(name := w.studio[i]));
    forall r | r in runs ensures !NamedAfter(r, course.code) {
      NobodyIsNamedAfter(r, course.code);
    }
    assert Shows(runs, w);
  }

  /** Two processes are enough: the first loses the slug, the second queues again. */
  lemma PaddedCodeRunsTwice(code: string)
    requires !Trimmed(code)
    ensures var course, file: map<string, Track> := Course(code, false), map[];
            && DiesUnsaved(World([], file), course, World([code], file))
            && DiesUnsaved(World([code], file), course, World([code, code], file))
            && multiset([code, code])[code] == 2
  {
    var course, file: map<string, Track> := Course(code, false), map[];
    assert code !in KEEP_DRAFT;
    NothingIsRecognised(World([], file), course);
    NothingIsRecognised(World([code], file), course);
    assert [] + [code] == [code] && [code] + [code] == [code, code];
  }

  // ── process after process ────────────────────────────────────────────

  /** How one process is started. */
  datatype Launch = Launch(courses: seq<Course>, concurrency: int, maxAttempts: int, toMoodle: bool, platform: Option<string>,
                           ack: bool, testHost: bool, hasStateFile: bool, includeHeld: bool, resume: bool,
                           retryBase: real, retryCap: real, stallTimeout: real, publishTimeout: real,
                           resetHint: (string, real) -> Option<real>, at: real, passes: nat)

  method Start(l: Launch, world: World) returns (d: Driver)
    requires OneRunEach(world)
    ensures fresh(d) && d.Valid() && d.past == [world] && d.world == world && d.maxAttempts == l.maxAttempts
    ensures d.tracks == d.start == MakeTracks(l.courses, if l.resume then world.file else map[], l.includeHeld)
  {
    d := new Driver(l.courses, l.concurrency, l.maxAttempts, l.toMoodle, l.platform, l.ack, l.testHost, l.hasStateFile,
                    l.includeHeld, l.retryBase, l.retryCap, l.stallTimeout, l.publishTimeout, l.resetHint, world, l.resume, l.at);
  }

  /** Process after process, however each is started, each killed at any moment, even between
      queueing a run and saving its slug, and the next one starting from whatever it left: still at
      most one run a course, and a state file as the driver writes it. */
  method Batches(world0: World, launches: seq<Launch>) returns (world: World)
    requires OneRunEach(world0)
    ensures OneRunEach(world)
    ensures FileOk(world0.file) ==> FileOk(world.file)
  {
    world := world0;
    for n := 0 to |launches|
      invariant OneRunEach(world)
      invariant FileOk(world0.file) ==> FileOk(world.file)
    {
      var d := Start(launches[n], world);
      ghost var begun := d.past;
      ghost var rounds;
      var allowed, finished, available;
      allowed, finished, available, rounds := d.RunFor(launches[n].passes);
      assert d.past[0] == begun[0] == world;
      // the crash leaves any state of the world the process went through
      var k: int := *;
      world := if 0 <= k < |d.past| then d.past[k] else d.world;
    }
  }

  /** The track follows the run whose slug was saved for the course, if one was, with the attempts
      counted so far, and waits if it waited. */
  ghost predicate Follows(t: Track, c: string, saved: map<string, Track>) {
    && (t.created <==> c in saved && saved[c].created && saved[c].slug.Some? && saved[c].slug.value != "")
    && (t.created ==>
          && t.slug == saved[c].slug && t.attempts == saved[c].attempts && t.nextRetryAt == saved[c].nextRetryAt
          && (t.status != Skipped ==> t.status == if saved[c].status == Waiting then Waiting else Pending))
  }

  lemma ResumedFollows(course: Course, saved: map<string, Track>, includeHeld: bool)
    ensures Follows(Resumed(course, saved, includeHeld), course.code, saved)
  {
  }

  /** The process resumed from any state a killed one left follows exactly the runs whose slugs were
      saved there. */
  method ResumeAfterCrash(d: Driver, k: nat, l: Launch) returns (next: Driver)
    requires d.Valid() && k < |d.past| && l.resume
    ensures fresh(next) && next.Valid()
    ensures forall i: nat :: LastOfItsCode(l.courses, i) ==>
              l.courses[i].code in next.tracks
              && Follows(next.tracks[l.courses[i].code], l.courses[i].code, d.past[k].file)
  {
    var world := d.past[k];
    assert OneRunEach(world);
    next := Start(l, world);
    AllFollow(l, world);
  }

  lemma AllFollow(l: Launch, world: World)
    ensures var tracks := MakeTracks(l.courses, world.file, l.includeHeld);
            forall i: nat :: LastOfItsCode(l.courses, i) ==>
              l.courses[i].code in tracks && Follows(tracks[l.courses[i].code], l.courses[i].code, world.file)
  {
    var tracks := MakeTracks(l.courses, world.file, l.includeHeld);
    forall i: nat | LastOfItsCode(l.courses, i)
      ensures l.courses[i].code in tracks && Follows(tracks[l.courses[i].code], l.courses[i].code, world.file)
    {
      LastCounts(l.courses, i, world.file, l.includeHeld);
      ResumedFollows(l.courses[i], world.file, l.includeHeld);
    }
  }
}
