/** Email validation, the attendee response projection and the attendee
    cache key (attendee.util.ts, attendee.constants.ts). */
module AttendeeUtil {
  import opened Common
  import opened Store

  /** ATTENDEE_CACHE_PREFIX. */
  const AttendeeCachePrefix: string := "attendees:"

  datatype EventBrief = EventBrief(id: Id, name: string, date: Time)

  datatype AttendeeResponse = AttendeeResponse(
    id: Id,
    name: string,
    email: string,
    registrationCount: Option<nat>,
    events: Option<seq<EventBrief>>)

  /** A registration together with its loaded `event` relation. */
  datatype LoadedRegistration = LoadedRegistration(registration: Registration, event: Event)

  // Character classes of EMAIL_PATTERN, /^[a-zA-Z0-9._%+-]+@[a-zA-Z0-9.-]+\.[a-zA-Z]{2,}$/.

  predicate IsLetter(c: char) { 'a' <= c <= 'z' || 'A' <= c <= 'Z' }
  predicate IsDigit(c: char) { '0' <= c <= '9' }
  predicate IsLocalChar(c: char) {
    IsLetter(c) || IsDigit(c) || c == '.' || c == '_' || c == '%' || c == '+' || c == '-'
  }
  predicate IsDomainChar(c: char) { IsLetter(c) || IsDigit(c) || c == '.' || c == '-' }

  /** The pattern read as a grammar: `s` splits at an `@` at index `at` and
      a `.` at index `dot` into a non-empty local part, a non-empty domain
      and a top-level domain of at least two letters. */
  ghost predicate MatchesAt(s: string, at: int, dot: int) {
    && 0 < at && at + 1 < dot && dot + 2 < |s|
    && s[at] == '@' && s[dot] == '.'
    && (forall k :: 0 <= k < at ==> IsLocalChar(s[k]))
    && (forall k :: at < k < dot ==> IsDomainChar(s[k]))
    && (forall k :: dot < k < |s| ==> IsLetter(s[k]))
  }

  ghost predicate MatchesEmailPattern(s: string) {
    exists at, dot :: MatchesAt(s, at, dot)
  }

  /** Index of the first `c` in `s`, or `|s|` when there is none. */
  function IndexOf(s: string, c: char): (i: nat)
    ensures i <= |s|
    ensures i < |s| ==> s[i] == c
    ensures forall k :: 0 <= k < i ==> s[k] != c
  {
    if s == [] then 0
    else if s[0] == c then 0
    else 1 + IndexOf(s[1..], c)
  }

  /** Index of the last `c` in `s`, or -1 when there is none. */
  function LastIndexOf(s: string, c: char): (i: int)
    ensures -1 <= i < |s|
    ensures i >= 0 ==> s[i] == c
    ensures forall k :: i < k < |s| ==> s[k] != c
  {
    if s == [] then -1
    else if s[|s| - 1] == c then |s| - 1
    else LastIndexOf(s[..|s| - 1], c)
  }

  /** What follows the `@`: domain characters, a last `.` with at least one
      character before it and at least two letters after it. */
  predicate IsDomainPart(d: string) {
    var dot := LastIndexOf(d, '.');
    && dot >= 1 && |d| - dot > 2
    && (forall k :: 0 <= k < dot ==> IsDomainChar(d[k]))
    && (forall k :: dot < k < |d| ==> IsLetter(d[k]))
  }

  /** `VALIDATION_RULES.EMAIL_PATTERN.test(email)`. */
  predicate ValidateEmail(email: string)
    ensures ValidateEmail(email) ==> |email| >= 6 && '@' in email
  {
    var at := IndexOf(email, '@');
    && 0 < at < |email|
    && (forall k :: 0 <= k < at ==> IsLocalChar(email[k]))
    && IsDomainPart(email[at + 1..])
  }

  /** The validator accepts exactly the strings the pattern matches. */
  lemma ValidateEmailIsPattern(s: string)
    ensures ValidateEmail(s) <==> MatchesEmailPattern(s)
  {
    if ValidateEmail(s) {
      AcceptedEmailMatches(s);
    }
    if MatchesEmailPattern(s) {
      var at, dot :| MatchesAt(s, at, dot);
      MatchedEmailAccepted(s, at, dot);
    }
  }

  lemma AcceptedEmailMatches(s: string)
    requires ValidateEmail(s)
    ensures MatchesEmailPattern(s)
  {
    var at := IndexOf(s, '@');
    var d := s[at + 1..];
    var dot := at + 1 + LastIndexOf(d, '.');
    assert forall k :: at < k < dot ==> s[k] == d[k - at - 1];
    assert forall k :: dot < k < |s| ==> s[k] == d[k - at - 1];
    assert MatchesAt(s, at, dot);
  }

  lemma MatchedEmailAccepted(s: string, at: int, dot: int)
    requires MatchesAt(s, at, dot)
    ensures ValidateEmail(s)
  {
    MatchedAtIsFirstAt(s, at, dot);
    var d := s[at + 1..];
    assert forall k :: 0 <= k < |d| ==> d[k] == s[k + at + 1];
    assert d[dot - at - 1] == '.';
    assert LastIndexOf(d, '.') == dot - at - 1 by {
      var last := LastIndexOf(d, '.');
      assert !(last < dot - at - 1);
      assert !(last > dot - at - 1);
    }
    assert IsDomainPart(d);
  }

  /** In a match, the `@` is the first `@` of the string. */
  lemma MatchedAtIsFirstAt(s: string, at: int, dot: int)
    requires MatchesAt(s, at, dot)
    ensures IndexOf(s, '@') == at
  {
    var i := IndexOf(s, '@');
    assert !(i < at);
  }

  /** An accepted email has exactly one `@`; the empty string is rejected. */
  lemma AcceptedEmailHasOneAt(s: string)
    requires ValidateEmail(s)
    ensures multiset(s)['@'] == 1
  {
    var at := IndexOf(s, '@');
    var d := s[at + 1..];
    var dot := LastIndexOf(d, '.');
    assert s == s[..at] + [s[at]] + d;
    assert '@' !in s[..at];
    assert forall k :: 0 <= k < |d| ==> d[k] != '@' by {
      forall k | 0 <= k < |d| ensures d[k] != '@' {
        if k < dot { assert IsDomainChar(d[k]); }
        else if k > dot { assert IsLetter(d[k]); }
      }
    }
    assert '@' !in d;
    assert multiset(s) == multiset(s[..at]) + multiset([s[at]]) + multiset(d);
  }

  lemma EmptyEmailRejected()
    ensures !ValidateEmail("")
  {
  }

  /** `attendees:<id>`. */
  function GenerateCacheKey(id: Id): (key: string)
    ensures |key| == |AttendeeCachePrefix| + |id|
    ensures key[..|AttendeeCachePrefix|] == AttendeeCachePrefix
    ensures key[|AttendeeCachePrefix|..] == id
  {
    AttendeeCachePrefix + id
  }

  /** Distinct attendees have distinct cache keys. */
  lemma CacheKeyInjective(a: Id, b: Id)
    ensures GenerateCacheKey(a) == GenerateCacheKey(b) ==> a == b
  {
    if GenerateCacheKey(a) == GenerateCacheKey(b) {
      assert a == GenerateCacheKey(a)[|AttendeeCachePrefix|..];
    }
  }

  function Brief(e: Event): EventBrief {
    EventBrief(e.id, e.name, e.date)
  }

  /** The response projection of an attendee. When the `registrations`
      relation was loaded, it carries their number and, in the same order,
      the id, name and date of each registration's event; otherwise both
      fields are absent. */
  function FormatResponse(a: Attendee, registrations: Option<seq<LoadedRegistration>>): (r: AttendeeResponse)
    ensures r.id == a.id && r.name == a.name && r.email == a.email
    ensures r.registrationCount.Some? <==> registrations.Some?
    ensures r.events.Some? <==> registrations.Some?
    ensures registrations.Some? ==>
      && r.registrationCount.value == |registrations.value|
      && |r.events.value| == |registrations.value|
      && forall k :: 0 <= k < |registrations.value| ==>
           r.events.value[k] == EventBrief(registrations.value[k].event.id,
                                           registrations.value[k].event.name,
                                           registrations.value[k].event.date)
  {
    match registrations
    case None => AttendeeResponse(a.id, a.name, a.email, None, None)
    case Some(regs) =>
      AttendeeResponse(a.id, a.name, a.email, Some(|regs|),
        Some(seq(|regs|, k requires 0 <= k < |regs| => Brief(regs[k].event))))
  }
}
