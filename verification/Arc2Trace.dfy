/** What the ARC2 batch driver (scripts/arc2_batch_inprocess.py) sees and sends: Studio runs and
    how they are classified, the requests it makes, and when each request is justified. */
module Arc2Trace {
  import opened Basics
  import opened Text

  /** A Studio run summary. An absent field is the empty string. */
  datatype Run = Run(slug: string, name: string, phase: string, jobState: string, jobError: string,
                     autoAccepted: bool, actionsBlocking: bool)

  /** What the release builder says about the tarball it built. */
  datatype Meta = Meta(catalogueCode: string, autoAccepted: bool)

  /** The API's answer about a course release. */
  datatype Release = Release(id: string, catalogueCode: string, autoAccepted: bool, state: string,
                             openActions: seq<string>, courseId: string)

  datatype Kind = KWorking | KHeld | KRetry | KFailed | KPackaged | KGate | KPaused

  const LIMIT_MARKERS := ["usage limit", "limit reached", "rate limit", "rate_limit", "overloaded", "credit balance"]
  const TRANSIENT_MARKERS :=
    ["api error: 5", "service unavailable", "connection error", "could not connect", "timed out", "the runner stopped"]

  predicate HasMarker(text: string, markers: seq<string>) {
    exists i :: 0 <= i < |markers| && Contains(text, markers[i])
  }

  predicate IsLimit(error: string) {
    HasMarker(Lower(error), LIMIT_MARKERS)
  }

  predicate Retryable(error: string) {
    IsLimit(error) || HasMarker(Lower(error), TRANSIENT_MARKERS)
  }

  function JobError(run: Run): string {
    if run.jobError == "" then "the job failed" else run.jobError
  }

  function Classify(run: Run): Kind {
    if run.jobState == "queued" || run.jobState == "running" then KWorking
    else if run.phase == "stopped" || run.phase == "takeover" then KHeld
    else if run.jobState == "failed" then if Retryable(JobError(run)) then KRetry else KFailed
    else if run.phase == "packaged" then KPackaged
    else if run.phase == "outline" || run.phase == "preview" then KGate
    else KPaused
  }

  // ── retry times ──────────────────────────────────────────────────────

  function Pow2(n: nat): real {
    if n == 0 then 1.0 else 2.0 * Pow2(n - 1)
  }

  /** `hint` is when a usage limit says it resets, if it says. */
  function NextRetry(error: string, hint: Option<real>, attempt: int, now: real, base: real, cap: real): real {
    if IsLimit(error) && hint.Some? && hint.value > now then hint.value + 120.0
    else
      var wait := base * Pow2(if attempt >= 1 then attempt - 1 else 0);
      now + if wait <= cap then wait else cap
  }

  lemma {:induction false} Pow2Positive(n: nat)
    ensures Pow2(n) >= 1.0
  {
    if n > 0 { Pow2Positive(n - 1); }
  }

  /** A retry always lies ahead, and without a hint at most the cap away. */
  lemma NextRetryIsAhead(error: string, hint: Option<real>, attempt: int, now: real, base: real, cap: real)
    requires base > 0.0 && cap > 0.0
    ensures NextRetry(error, hint, attempt, now, base, cap) > now
    ensures !(IsLimit(error) && hint.Some? && hint.value > now) ==> NextRetry(error, hint, attempt, now, base, cap) <= now + cap
  {
    var n: nat := if attempt >= 1 then attempt - 1 else 0;
    Pow2Positive(n);
    assert base * Pow2(n) >= base * 1.0;
  }

  // ── names ────────────────────────────────────────────────────────────

  /** Runs in the tenant named after the course. */
  predicate NamedAfter(run: Run, code: string) {
    Lower(Strip(run.name)) == Lower(code)
  }

  /** A run the driver itself named after the course shows up as a run of that name exactly when
      the code carries no white space around it. */
  lemma OwnRunIsNamedAfter(run: Run, code: string)
    requires run.name == code
    ensures NamedAfter(run, code) <==> Trimmed(code)
  {
    StripTrims(code);
    if !Trimmed(code) {
      NobodyIsNamedAfter(run, code);
    }
  }

  /** No run at all shows up under a code with white space around it. */
  lemma NobodyIsNamedAfter(run: Run, code: string)
    requires !Trimmed(code)
    ensures !NamedAfter(run, code)
  {
    var name := Strip(run.name);
    StripTrims(run.name);
    if Lower(name) == Lower(code) {
      forall i | 0 <= i < |code| ensures IsSpace(name[i]) <==> IsSpace(code[i]) {
        LowerKeepsSpace(name, i);
        LowerKeepsSpace(code, i);
      }
      assert false;
    }
  }

  // ── what a pass does with a new course ───────────────────────────────

  datatype Decision = TurnDown | Queue | NoRoom

  function Decide(runs: seq<Run>, code: string, busy: nat, concurrency: nat): Decision {
    if exists r :: r in runs && NamedAfter(r, code) then TurnDown
    else if busy < concurrency then Queue
    else NoRoom
  }

  predicate SlugChar(c: char) {
    'a' <= c <= 'z' || '0' <= c <= '9' || c == '-'
  }

  function Line(slug: string): string {
    if slug != "" && slug[|slug| - 1] == '\n' then slug[..|slug| - 1] else slug
  }

  /** ^arc2-[a-z0-9-]{1,60}$, where $ also matches before a final newline. */
  predicate SlugOk(slug: string) {
    var s := Line(slug);
    "arc2-" <= s && 6 <= |s| <= 65 && forall i :: 5 <= i < |s| ==> SlugChar(s[i])
  }

  // ── the trace ────────────────────────────────────────────────────────

  /** A request with what was answered: None for an error or an answer that cannot be used. */
  datatype Event =
    | ListRuns(runs: Option<seq<Run>>)
    | QueueRun(code: string, answered: Option<string>)
    | RetryRun(code: string, slug: string, status: int)
    | SeePackaged(code: string, run: Run)
    | Build(code: string, slug: string, meta: Option<Meta>)
    | Upload(code: string, slug: string, answer: Option<Release>)
    | Accept(code: string, release: string, acknowledged: seq<string>, answer: Option<Release>)
    | ReadCourse(code: string, course: string, published: Option<bool>)
    | PublishCourse(code: string, course: string, done: bool)
    | ListPlatforms(moodle: Option<string>)
    | PublishRelease(code: string, release: string, state: Option<string>)
    | ReadPublication(code: string, state: Option<string>)

  /** Requests that change something on the server. */
  predicate IsWrite(e: Event) {
    e.QueueRun? || e.RetryRun? || e.Upload? || e.Accept? || e.PublishCourse? || e.PublishRelease?
  }

  /** Fixed for one process: the runs it resumed, the courses it must not touch, and whether it
      may acknowledge open actions. */
  datatype Terms = Terms(resumed: map<string, string>, barred: set<string>, mayAcknowledge: bool)

  /** The run is the driver's own: queued by this process, or resumed as one it had queued. */
  ghost predicate Owned(terms: Terms, before: seq<Event>, code: string, slug: string) {
    (code in terms.resumed && terms.resumed[code] == slug) || Queued(before, code, slug)
  }

  ghost predicate Queued(before: seq<Event>, code: string, slug: string) {
    before != [] &&
    (|| (before[|before| - 1] == QueueRun(code, Some(slug)) && SlugOk(slug))
     || Queued(before[..|before| - 1], code, slug))
  }

  /** The server said the release is accepted. */
  ghost predicate SaysAccepted(e: Event, code: string) {
    || (e.Upload? && e.code == code && e.answer.Some? && TestContent(e.answer.value, code) && e.answer.value.state == "accepted")
    || (e.Accept? && e.code == code && e.answer.Some? && e.answer.value.state == "accepted")
  }

  predicate TestContent(rel: Release, code: string) {
    Lower(rel.catalogueCode) == Lower(code) && rel.autoAccepted
  }

  function ReleaseOf(e: Event): string
    requires e.Upload? || e.Accept?
  {
    if e.Accept? then e.release else if e.answer.Some? then e.answer.value.id else ""
  }

  ghost predicate ReleaseAccepted(before: seq<Event>, code: string, release: string) {
    before != [] &&
    (|| (SaysAccepted(before[|before| - 1], code) && ReleaseOf(before[|before| - 1]) == release)
     || ReleaseAccepted(before[..|before| - 1], code, release))
  }

  ghost predicate CourseAccepted(before: seq<Event>, code: string, course: string) {
    before != [] &&
    (|| (SaysAccepted(before[|before| - 1], code) && before[|before| - 1].answer.value.courseId == course)
     || CourseAccepted(before[..|before| - 1], code, course))
  }

  function Last(s: seq<Event>): Event
    requires s != []
  {
    s[|s| - 1]
  }

  /** Why this request may follow these. */
  ghost predicate Justified(terms: Terms, before: seq<Event>, e: Event) {
    && (IsWrite(e) ==> e.code !in terms.barred)
    && (e.RetryRun? ==> Owned(terms, before, e.code, e.slug))
    && (e.Upload? ==> UploadJustified(terms, before, e))
    && (e.Accept? ==> AcceptJustified(terms, before, e))
    && (e.PublishCourse? ==> CourseAccepted(before, e.code, e.course))
    && (e.PublishRelease? ==> ReleaseAccepted(before, e.code, e.release))
  }

  /** Only a build of a packaged run of the driver's own, both auto-accepted, of this course. */
  ghost predicate UploadJustified(terms: Terms, before: seq<Event>, e: Event)
    requires e.Upload?
  {
    && |before| >= 2
    && var build, seen := before[|before| - 1], before[|before| - 2];
       && Owned(terms, before, e.code, e.slug)
       && build.Build? && build.code == e.code && build.slug == e.slug && build.meta.Some?
       && build.meta.value.autoAccepted && Lower(Strip(build.meta.value.catalogueCode)) == Lower(e.code)
       && seen.SeePackaged? && seen.code == e.code && seen.run.slug == e.slug
       && seen.run.autoAccepted && Classify(seen.run) == KPackaged
  }

  /** Only the candidate just uploaded, when it is test content of this course, acknowledging
      exactly its open actions, and those only when allowed. */
  ghost predicate AcceptJustified(terms: Terms, before: seq<Event>, e: Event)
    requires e.Accept?
  {
    && before != []
    && var up := Last(before);
       && up.Upload? && up.code == e.code && up.answer.Some?
       && var rel := up.answer.value;
          && rel.id == e.release && TestContent(rel, e.code) && rel.state == "candidate"
          && e.acknowledged == rel.openActions && (rel.openActions == [] || terms.mayAcknowledge)
  }

  /** Every request of the trace was justified by what came before it. */
  ghost predicate Sound(terms: Terms, trace: seq<Event>) {
    trace == [] ||
    (Sound(terms, trace[..|trace| - 1]) && Justified(terms, trace[..|trace| - 1], trace[|trace| - 1]))
  }

  function Retries(trace: seq<Event>, code: string): nat {
    if trace == [] then 0
    else Retries(trace[..|trace| - 1], code) + if Last(trace).RetryRun? && Last(trace).code == code then 1 else 0
  }

  lemma Appended(terms: Terms, trace: seq<Event>, e: Event)
    requires Sound(terms, trace) && Justified(terms, trace, e)
    ensures Sound(terms, trace + [e])
    ensures forall c :: Retries(trace + [e], c) == Retries(trace, c) + if e.RetryRun? && e.code == c then 1 else 0
    ensures forall c, s :: Queued(trace + [e], c, s) <==> (e == QueueRun(c, Some(s)) && SlugOk(s)) || Queued(trace, c, s)
    ensures forall c, r :: ReleaseAccepted(trace, c, r) ==> ReleaseAccepted(trace + [e], c, r)
    ensures forall c, r :: CourseAccepted(trace, c, r) ==> CourseAccepted(trace + [e], c, r)
  {
    assert (trace + [e])[..|trace|] == trace;
  }

  lemma {:induction false} SoundEverywhere(terms: Terms, trace: seq<Event>, j: nat)
    requires Sound(terms, trace) && j < |trace|
    ensures Justified(terms, trace[..j], trace[j])
    ensures Sound(terms, trace[..j])
  {
    var n := |trace| - 1;
    if j < n {
      SoundEverywhere(terms, trace[..n], j);
      assert trace[..n][..j] == trace[..j];
    }
  }

  /** The accept answers the upload before it: a candidate of this course's test content, whose
      open actions it acknowledges, if any, only when allowed. */
  lemma AcceptFollowsUpload(terms: Terms, trace: seq<Event>, j: nat)
    requires Sound(terms, trace) && j < |trace| && trace[j].Accept?
    ensures j >= 1 && trace[j].code !in terms.barred
    ensures var up := trace[j - 1];
            && up.Upload? && up.code == trace[j].code && up.answer.Some?
            && up.answer.value.id == trace[j].release && up.answer.value.state == "candidate"
            && up.answer.value.autoAccepted && Lower(up.answer.value.catalogueCode) == Lower(trace[j].code)
            && trace[j].acknowledged == up.answer.value.openActions
            && (trace[j].acknowledged != [] ==> terms.mayAcknowledge)
  {
    SoundEverywhere(terms, trace, j);
    var before := trace[..j];
    assert AcceptJustified(terms, before, trace[j]);
    assert Last(before) == trace[j - 1];
  }

  /** The upload follows a build of a packaged run of the driver's own, both auto-accepted and of
      this course. */
  lemma UploadFollowsBuild(terms: Terms, trace: seq<Event>, j: nat)
    requires Sound(terms, trace) && j < |trace| && trace[j].Upload?
    ensures j >= 2 && Owned(terms, trace[..j], trace[j].code, trace[j].slug)
    ensures var seen, build := trace[j - 2], trace[j - 1];
            && seen.SeePackaged? && seen.code == trace[j].code && seen.run.slug == trace[j].slug
            && seen.run.autoAccepted && Classify(seen.run) == KPackaged
            && build.Build? && build.code == trace[j].code && build.slug == trace[j].slug && build.meta.Some?
            && build.meta.value.autoAccepted && Lower(Strip(build.meta.value.catalogueCode)) == Lower(trace[j].code)
  {
    SoundEverywhere(terms, trace, j);
    var before := trace[..j];
    assert UploadJustified(terms, before, trace[j]);
    assert before[j - 1] == trace[j - 1] && before[j - 2] == trace[j - 2];
  }

  /** Each accept is for a release uploaded just before it, built from a packaged run that is
      the driver's own; run, build and release are all auto-accepted and of the same course. */
  lemma AcceptsAreTraced(terms: Terms, trace: seq<Event>, j: nat)
    requires Sound(terms, trace) && j < |trace| && trace[j].Accept?
    ensures j >= 3 && trace[j].code !in terms.barred
    ensures trace[j - 1].Upload? && trace[j - 2].Build? && trace[j - 3].SeePackaged?
    ensures trace[j - 3].code == trace[j - 2].code == trace[j - 1].code == trace[j].code
    ensures trace[j - 3].run.slug == trace[j - 2].slug == trace[j - 1].slug
    ensures Owned(terms, trace[..j - 1], trace[j].code, trace[j - 1].slug)
    ensures AllTestContent(trace[j - 3].run, trace[j - 2].meta, trace[j - 1].answer, trace[j].code)
    ensures trace[j - 1].answer.value.id == trace[j].release && trace[j - 1].answer.value.state == "candidate"
    ensures trace[j].acknowledged == trace[j - 1].answer.value.openActions
    ensures trace[j].acknowledged != [] ==> terms.mayAcknowledge
  {
    AcceptFollowsUpload(terms, trace, j);
    UploadFollowsBuild(terms, trace, j - 1);
  }

  /** Packaged without a person, and of this course all the way. */
  predicate AllTestContent(run: Run, meta: Option<Meta>, answer: Option<Release>, code: string) {
    && run.autoAccepted && Classify(run) == KPackaged
    && meta.Some? && meta.value.autoAccepted && Lower(Strip(meta.value.catalogueCode)) == Lower(code)
    && answer.Some? && answer.value.autoAccepted && Lower(answer.value.catalogueCode) == Lower(code)
  }

  /** A course is published, here or on the LMS, only after the server said its release is
      accepted. */
  lemma {:induction false} AcceptedEarlier(trace: seq<Event>, code: string, release: string) returns (i: nat)
    requires ReleaseAccepted(trace, code, release)
    ensures i < |trace| && SaysAccepted(trace[i], code) && ReleaseOf(trace[i]) == release
  {
    var n := |trace| - 1;
    if SaysAccepted(trace[n], code) && ReleaseOf(trace[n]) == release {
      i := n;
    } else {
      i := AcceptedEarlier(trace[..n], code, release);
    }
  }

  lemma {:induction false} CourseAcceptedEarlier(trace: seq<Event>, code: string, course: string) returns (i: nat)
    requires CourseAccepted(trace, code, course)
    ensures i < |trace| && SaysAccepted(trace[i], code) && trace[i].answer.value.courseId == course
  {
    var n := |trace| - 1;
    if SaysAccepted(trace[n], code) && trace[n].answer.value.courseId == course {
      i := n;
    } else {
      i := CourseAcceptedEarlier(trace[..n], code, course);
    }
  }

  lemma PublishingFollowsAcceptance(terms: Terms, trace: seq<Event>, j: nat) returns (i: nat)
    requires Sound(terms, trace) && j < |trace| && (trace[j].PublishRelease? || trace[j].PublishCourse?)
    ensures i < j && (trace[i].Upload? || trace[i].Accept?) && trace[i].code == trace[j].code
    ensures trace[i].answer.Some? && trace[i].answer.value.state == "accepted"
    ensures trace[j].PublishRelease? ==>
              trace[j].release == if trace[i].Accept? then trace[i].release else trace[i].answer.value.id
    ensures trace[j].PublishCourse? ==> trace[i].answer.value.courseId == trace[j].course
    ensures trace[i].Upload? ==>
              trace[i].answer.value.autoAccepted && Lower(trace[i].answer.value.catalogueCode) == Lower(trace[j].code)
  {
    SoundEverywhere(terms, trace, j);
    if trace[j].PublishRelease? {
      i := AcceptedEarlier(trace[..j], trace[j].code, trace[j].release);
    } else {
      i := CourseAcceptedEarlier(trace[..j], trace[j].code, trace[j].course);
    }
  }

  // ── the pieces in other words ────────────────────────────────────────

  ghost predicate Says(error: string, marker: string) {
    exists i :: StandsAt(Lower(error), marker, i)
  }

  /** A limit, or a passing fault, is told by what the error says, in any case. */
  lemma RetryableMeans(error: string)
    ensures IsLimit(error) <==>
            || Says(error, "usage limit") || Says(error, "limit reached") || Says(error, "rate limit")
            || Says(error, "rate_limit") || Says(error, "overloaded") || Says(error, "credit balance")
    ensures Retryable(error) <==>
            || IsLimit(error) || Says(error, "api error: 5") || Says(error, "service unavailable")
            || Says(error, "connection error") || Says(error, "could not connect") || Says(error, "timed out")
            || Says(error, "the runner stopped")
  {
    var text := Lower(error);
    forall i | 0 <= i < |LIMIT_MARKERS| ensures Contains(text, LIMIT_MARKERS[i]) <==> Says(error, LIMIT_MARKERS[i]) {
      ContainsMeans(text, LIMIT_MARKERS[i]);
    }
    forall i | 0 <= i < |TRANSIENT_MARKERS| ensures Contains(text, TRANSIENT_MARKERS[i]) <==> Says(error, TRANSIENT_MARKERS[i]) {
      ContainsMeans(text, TRANSIENT_MARKERS[i]);
    }
    LimitMarkers(error);
    TransientMarkers(error);
  }

  lemma LimitMarkers(error: string)
    ensures (exists i :: 0 <= i < |LIMIT_MARKERS| && Says(error, LIMIT_MARKERS[i])) <==>
            || Says(error, "usage limit") || Says(error, "limit reached") || Says(error, "rate limit")
            || Says(error, "rate_limit") || Says(error, "overloaded") || Says(error, "credit balance")
  {
    assert LIMIT_MARKERS[0] == "usage limit" && LIMIT_MARKERS[1] == "limit reached" && LIMIT_MARKERS[2] == "rate limit";
    assert LIMIT_MARKERS[3] == "rate_limit" && LIMIT_MARKERS[4] == "overloaded" && LIMIT_MARKERS[5] == "credit balance";
  }

  lemma TransientMarkers(error: string)
    ensures (exists i :: 0 <= i < |TRANSIENT_MARKERS| && Says(error, TRANSIENT_MARKERS[i])) <==>
            || Says(error, "api error: 5") || Says(error, "service unavailable") || Says(error, "connection error")
            || Says(error, "could not connect") || Says(error, "timed out") || Says(error, "the runner stopped")
  {
    assert TRANSIENT_MARKERS[0] == "api error: 5" && TRANSIENT_MARKERS[1] == "service unavailable";
    assert TRANSIENT_MARKERS[2] == "connection error" && TRANSIENT_MARKERS[3] == "could not connect";
    assert TRANSIENT_MARKERS[4] == "timed out" && TRANSIENT_MARKERS[5] == "the runner stopped";
  }

  /** A job under way comes first, a person's stop next, then the job's failure, then the phase. */
  lemma ClassifyMeans(run: Run)
    ensures run.jobState in {"queued", "running"} <==> Classify(run) == KWorking
    ensures run.jobState !in {"queued", "running"} && run.phase in {"stopped", "takeover"} <==> Classify(run) == KHeld
    ensures run.jobState == "failed" && run.phase !in {"stopped", "takeover"} <==> Classify(run) in {KRetry, KFailed}
    ensures Classify(run) == KRetry ==> Retryable(JobError(run))
    ensures Classify(run) == KFailed ==> !Retryable(JobError(run))
    ensures JobError(run) == run.jobError || (run.jobError == "" && JobError(run) == "the job failed")
    ensures run.jobState !in {"queued", "running", "failed"} && run.phase == "packaged" <==> Classify(run) == KPackaged
    ensures run.jobState !in {"queued", "running", "failed"} && run.phase in {"outline", "preview"} <==> Classify(run) == KGate
  {
  }

  /** After a usable hint two minutes more; else the base, doubled from attempt to attempt, up to the
      cap. */
  lemma NextRetryMeans(error: string, hint: Option<real>, attempt: int, now: real, base: real, cap: real)
    requires base >= 0.0 && cap >= 0.0
    ensures var when := NextRetry(error, hint, attempt, now, base, cap);
            if IsLimit(error) && hint.Some? && hint.value > now then when == hint.value + 120.0
            else if attempt <= 1 then when - now == if base <= cap then base else cap
            else
              var double := 2.0 * (NextRetry(error, hint, attempt - 1, now, base, cap) - now);
              when - now == if double <= cap then double else cap
  {
    if attempt > 1 {
      assert Pow2(attempt - 1) == 2.0 * Pow2(attempt - 2);
      Pow2Positive(attempt - 2);
      Doubled(base, Pow2(attempt - 2));
    }
  }

  lemma Doubled(a: real, b: real)
    requires a >= 0.0 && b >= 0.0
    ensures a * (2.0 * b) == 2.0 * (a * b) && a * b >= 0.0
  {
  }

  /** A name is the course's own in any case and with any white space around it. */
  lemma NamesMean(run: Run, code: string, before: string, name: string, after: string)
    requires run.name == before + name + after && Blank(before) && Blank(after) && Trimmed(name)
    ensures NamedAfter(run, code) <==> Lower(name) == Lower(code)
  {
    StripTakesOff(before, name, after);
  }

  /** A small letter, a digit or a hyphen, by code. */
  predicate OfSlug(c: char) {
    97 <= c as int <= 122 || 48 <= c as int <= 57 || c as int == 45
  }

  lemma SlugCharsAre(c: char)
    ensures SlugChar(c) <==> OfSlug(c)
  {
    assert 'a' as int == 97 && 'z' as int == 122 && '0' as int == 48 && '9' as int == 57 && '-' as int == 45;
    if OfSlug(c) && c as int == 45 { assert c == '-'; }
  }

  ghost predicate IsSlug(slug: string, body: string) {
    (slug == "arc2-" + body || slug == "arc2-" + body + "\n")
    && 1 <= |body| <= 60 && forall i :: 0 <= i < |body| ==> OfSlug(body[i])
  }

  lemma SlugsMean(slug: string)
    ensures SlugOk(slug) <==> exists body :: IsSlug(slug, body)
  {
    if SlugOk(slug) {
      var s := Line(slug);
      assert forall i :: 5 <= i < |s| ==> SlugChar(s[i]);
      assert s == "arc2-" + s[5..];
      forall i | 0 <= i < |s[5..]| ensures OfSlug(s[5..][i]) {
        assert s[5..][i] == s[i + 5] && SlugChar(s[i + 5]);
        SlugCharsAre(s[i + 5]);
      }
      assert IsSlug(slug, s[5..]);
    }
    if body :| IsSlug(slug, body) {
      SlugIsOk(slug, body);
    }
  }

  lemma SlugIsOk(slug: string, body: string)
    requires IsSlug(slug, body)
    ensures SlugOk(slug)
  {
    assert OfSlug(body[|body| - 1]);
    var s := "arc2-" + body;
    forall i | 5 <= i < |s| ensures SlugChar(s[i]) {
      assert s[i] == body[i - 5];
      SlugCharsAre(body[i - 5]);
    }
    if slug == s {
      assert slug[|slug| - 1] == body[|body| - 1];
    } else {
      assert slug[..|slug| - 1] == s;
    }
  }

  /** What may not be sent for a barred course: nothing that queues, retries, uploads, accepts or
      publishes. */
  lemma WritesAre(e: Event)
    ensures !IsWrite(e) <==> e.ListRuns? || e.SeePackaged? || e.Build? || e.ReadCourse? || e.ListPlatforms? || e.ReadPublication?
  {
  }
}
