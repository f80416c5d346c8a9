/** The order of precedence of request preconditions (section 6 of RFC 7232) and revalidation by date. */
module Preconditions {
  import opened Bytes
  import opened Text
  import opened EntityTag
  import opened LooseTags

  /** Nanoseconds in a second; times are nanoseconds since the Unix epoch. */
  const SECOND: int := 1_000_000_000

  /** The zero time: midnight of the first of January of year 1. */
  const ZERO_TIME: int := -62_135_596_800 * SECOND

  predicate IsZeroTime(t: int) {
    t == ZERO_TIME || t == 0
  }

  function Unix(t: int): int {
    t / SECOND
  }

  /** The date format of the headers: whole seconds to text and back. */
  datatype Dates = Dates(format: int -> string, parse: string -> Option<int>)

  /** The only law used: a formatted second is read back, and is not empty. */
  ghost predicate LawfulAt(d: Dates, sec: int) {
    d.parse(d.format(sec)) == Some(sec) && d.format(sec) != ""
  }

  /** The conditional header fields; an absent field is empty. */
  datatype Request = Request(
    verb: string, ifMatch: string, ifUnmodifiedSince: string, ifNoneMatch: string,
    ifModifiedSince: string, ifRange: string, range: string)

  /** What is served: its current tag ("" for none) and modification time. */
  datatype Resource = Resource(etag: string, modtime: int)

  predicate IsRead(verb: string) {
    verb == "GET" || verb == "HEAD"
  }

  /** Unmodified since a date of whole seconds means earlier than the next second. */
  function IfUnmodifiedSince(d: Dates, q: Request, r: Resource): Cond {
    if q.ifUnmodifiedSince == "" || IsZeroTime(r.modtime) then CondNone
    else
      match d.parse(q.ifUnmodifiedSince)
      case None => CondNone
      case Some(t) => if r.modtime < t * SECOND + SECOND then CondTrue else CondFalse
  }

  function IfModifiedSince(d: Dates, q: Request, r: Resource): Cond {
    if !IsRead(q.verb) || q.ifModifiedSince == "" || IsZeroTime(r.modtime) then CondNone
    else
      match d.parse(q.ifModifiedSince)
      case None => CondNone
      case Some(t) => if r.modtime < t * SECOND + SECOND then CondFalse else CondTrue
  }

  function IfRange(d: Dates, q: Request, r: Resource): Cond {
    if !IsRead(q.verb) || q.ifRange == "" then CondNone
    else
      var tag := Scan(q.ifRange).0;
      if tag != "" then (if StrongMatch(tag, r.etag) then CondTrue else CondFalse)
      else if r.modtime == ZERO_TIME then CondFalse
      else
        match d.parse(q.ifRange)
        case None => CondFalse
        case Some(t) => if t == Unix(r.modtime) then CondTrue else CondFalse
  }

  lemma IfMatchNeverPanics(header: string, etag: string)
    ensures IfMatch(header, etag) != Panic
  {
    MatchListPresent(header, etag);
  }

  datatype Decision = NotModified | PreconditionFailed | Proceed(range: string) | Crash

  method CheckPreconditions(d: Dates, q: Request, r: Resource) returns (out: Decision)
    ensures out == Decide(d, q, r)
  {
    hide IfMatch, IfNoneMatch, IfUnmodifiedSince, IfRange;
    IfMatchNeverPanics(q.ifMatch, r.etag);
    var ch := CheckIfMatch(q.ifMatch, r.etag);
    if ch == CondNone {
      ch := IfUnmodifiedSince(d, q, r);
    }
    if ch == CondFalse {
      return PreconditionFailed;
    }
    var inm := CheckIfNoneMatch(q.ifNoneMatch, r.etag);
    match inm {
      case Panic => return Crash;
      case CondFalse =>
        if q.verb == "GET" || q.verb == "HEAD" {
          return NotModified;
        } else {
          return PreconditionFailed;
        }
      case CondNone =>
        if IfModifiedSince(d, q, r) == CondFalse {
          return NotModified;
        }
      case CondTrue =>
    }
    var rangeHeader := q.range;
    if rangeHeader != "" && IfRange(d, q, r) == CondFalse {
      rangeHeader := "";
    }
    return Proceed(rangeHeader);
  }

  // ----- the steps of section 6 -----

  /** Each precondition as evaluated: absent (or to be ignored), or present with its outcome. */
  datatype Evaluated = Evaluated(
    read: bool, ifMatch: Option<bool>, ifUnmodifiedSince: Option<bool>, ifNoneMatch: Option<bool>,
    ifModifiedSince: Option<bool>, ifRange: Option<bool>)

  datatype StepResult = Continue | Stop(status: int)

  /** Step 1: If-Match, when present. */
  function Step1(e: Evaluated): StepResult {
    if e.ifMatch == Some(false) then Stop(412) else Continue
  }

  /** Step 2: If-Unmodified-Since, when If-Match is not present. */
  function Step2(e: Evaluated): StepResult {
    if e.ifMatch.None? && e.ifUnmodifiedSince == Some(false) then Stop(412) else Continue
  }

  /** Step 3: If-None-Match, when present. */
  function Step3(e: Evaluated): StepResult {
    if e.ifNoneMatch == Some(false) then Stop(if e.read then 304 else 412) else Continue
  }

  /** Step 4: If-Modified-Since, when If-None-Match is not present, for GET and HEAD. */
  function Step4(e: Evaluated): StepResult {
    if e.read && e.ifNoneMatch.None? && e.ifModifiedSince == Some(false) then Stop(304) else Continue
  }

  /** The next step counts only if this one does not stop. */
  function Then(step: StepResult, next: StepResult): StepResult {
    if step.Stop? then step else next
  }

  /** The response the list of steps arrives at; step 5 drops a range whose If-Range is false. */
  function Section6(e: Evaluated, range: string): Decision {
    match Then(Step1(e), Then(Step2(e), Then(Step3(e), Step4(e))))
    case Stop(status) => if status == 304 then NotModified else PreconditionFailed
    case Continue => Proceed(if e.ifRange == Some(false) then "" else range)
  }

  function Outcome(c: Cond): Option<bool> {
    match c
    case CondTrue => Some(true)
    case CondFalse => Some(false)
    case _ => None
  }

  function Evaluate(d: Dates, q: Request, r: Resource): Evaluated {
    Evaluated(IsRead(q.verb), Outcome(IfMatch(q.ifMatch, r.etag)), Outcome(IfUnmodifiedSince(d, q, r)),
              Outcome(IfNoneMatch(q.ifNoneMatch, r.etag)), Outcome(IfModifiedSince(d, q, r)), Outcome(IfRange(d, q, r)))
  }

  /** The decision is the one of the steps, unless the scan of If-None-Match is reached and panics. */
  function Decide(d: Dates, q: Request, r: Resource): Decision {
    var e := Evaluate(d, q, r);
    if IfNoneMatch(q.ifNoneMatch, r.etag) == Panic && Step1(e).Continue? && Step2(e).Continue? then Crash
    else Section6(e, q.range)
  }

  /** 304 goes only to GET and HEAD. */
  lemma NotModifiedOnlyToReads(d: Dates, q: Request, r: Resource)
    requires Decide(d, q, r) == NotModified
    ensures q.verb == "GET" || q.verb == "HEAD"
  {
    hide IfMatch, IfNoneMatch;
  }

  /** Nothing before If-None-Match stops the evaluation. */
  predicate ReachesNoneMatch(d: Dates, q: Request, r: Resource) {
    IfMatch(q.ifMatch, r.etag) != CondFalse &&
    (q.ifMatch == "" ==> IfUnmodifiedSince(d, q, r) != CondFalse)
  }

  /** Exactly which requests crash, among all: those that reach If-None-Match with a loose list of tags that
      do not match and a comma no tag follows. */
  lemma CrashIff(d: Dates, q: Request, r: Resource)
    ensures Decide(d, q, r) == Crash <==> ReachesNoneMatch(d, q, r) && DanglingComma(q.ifNoneMatch, r.etag)
  {
    hide IfNoneMatch, IfUnmodifiedSince, DanglingComma, MatchList;
    PanicIff(q.ifNoneMatch, r.etag);
    MatchListPresent(q.ifMatch, r.etag);
  }

  lemma {:induction false} MatchListPresent(s: string, etag: string)
    ensures MatchList(s, etag) == CondTrue || MatchList(s, etag) == CondFalse
    decreases |s|
  {
    hide Scan, Trim;
    var t := Trim(HttpSpace, s);
    if t != "" && t[0] == ',' {
      MatchListPresent(t[1..], etag);
    } else if t != "" && t[0] != '*' && Scan(t).0 != "" {
      MatchListPresent(Scan(t).1, etag);
    }
  }

  /** No request crashes whose If-None-Match does not end in a comma. */
  lemma NoCommaNoCrash(d: Dates, q: Request, r: Resource)
    requires !EndsInComma(q.ifNoneMatch)
    ensures Decide(d, q, r) != Crash
  {
    hide IfMatch, IfNoneMatch;
    NoCommaNoPanic(q.ifNoneMatch, r.etag);
  }

  /** A request with well-formed tag lists never crashes the evaluation. */
  lemma WellFormedListsDoNotCrash(d: Dates, q: Request, r: Resource, es: seq<Element>)
    requires es != [] && q.ifNoneMatch == ListText(es, "")
    ensures Decide(d, q, r) != Crash
  {
    hide IfMatch, IfNoneMatch, ListText;
    ListsMeanTheirTags(es, r.etag);
  }

  // ----- revalidation -----

  /** The Last-Modified value sent with a resource, if any. */
  function LastModified(d: Dates, r: Resource): Option<string> {
    if IsZeroTime(r.modtime) then None else Some(d.format(Unix(r.modtime)))
  }

  function Revalidation(verb: string, since: string): Request {
    Request(verb, "", "", "", since, "", "")
  }

  /** Returning the Last-Modified value of `earlier` for the resource `r` yields 304 if and only if `r` was
      not modified in a later second; a resource without a usable time is always sent. */
  lemma RevalidateByDate(d: Dates, earlier: Resource, r: Resource, verb: string)
    requires IsRead(verb) && !IsZeroTime(earlier.modtime) && LawfulAt(d, Unix(earlier.modtime))
    ensures var q := Revalidation(verb, LastModified(d, earlier).value);
            && (Decide(d, q, r) == NotModified <==> !IsZeroTime(r.modtime) && Unix(r.modtime) <= Unix(earlier.modtime))
            && (Decide(d, q, r) == NotModified || Decide(d, q, r) == Proceed(""))
  {
    var since := LastModified(d, earlier).value;
    var q := Revalidation(verb, since);
    var e := Evaluate(d, q, r);
    assert e.ifMatch.None? && e.ifUnmodifiedSince.None? && e.ifNoneMatch.None? && e.ifRange.None?;
    assert r.modtime < Unix(earlier.modtime) * SECOND + SECOND <==> Unix(r.modtime) <= Unix(earlier.modtime);
  }

  /** The same file is not sent again, and one modified at least a second later always is. */
  lemma RevalidationFresh(d: Dates, before: Resource, after: Resource, verb: string)
    requires IsRead(verb) && !IsZeroTime(before.modtime) && !IsZeroTime(after.modtime)
    requires LawfulAt(d, Unix(before.modtime))
    ensures var q := Revalidation(verb, LastModified(d, before).value);
            && Decide(d, q, before) == NotModified
            && (after.modtime >= before.modtime + SECOND ==> Decide(d, q, after) == Proceed(""))
  {
    hide Decide, LastModified;
    RevalidateByDate(d, before, before, verb);
    RevalidateByDate(d, before, after, verb);
  }
}
