/**
 * Guard validators of the backend (backend/utils/validators.py): each one
 * passes silently or raises a 400 error. Times are UTC instants, the way
 * Python compares two aware datetimes.
 */
module Validators {
  import opened Wrappers
  import opened Http
  import opened Text

  /** `validate_time_range`: the start must lie strictly before the end. */
  function ValidateTimeRange(start: int, end: int): (r: Outcome<HttpError>)
    ensures r.Fail? <==> start >= end
    ensures r.Fail? ==> r.error == INVALID_TIME_RANGE
  {
    if start >= end then Fail(INVALID_TIME_RANGE) else Pass
  }

  /** `validate_future_time`: only a time strictly before `now` fails, so `time == now` passes. */
  function ValidateFutureTime(time: int, now: int): (r: Outcome<HttpError>)
    ensures r.Fail? <==> time < now
    ensures r.Fail? ==> r.error == PAST_TIME
  {
    if time < now then Fail(PAST_TIME) else Pass
  }

  /** `validate_positive_number`: zero and negatives fail, naming the field. */
  function ValidatePositiveNumber(value: int, fieldName: string): (r: Outcome<HttpError>)
    ensures r.Fail? <==> value <= 0
    ensures r.Fail? ==> r.error == HttpError(400, fieldName + "必须是正整数")
  {
    if value <= 0 then Fail(HttpError(400, fieldName + "必须是正整数")) else Pass
  }

  /** `validate_string_not_empty`: fails for the empty string and for whitespace-only strings. */
  function ValidateStringNotEmpty(value: string, fieldName: string): (r: Outcome<HttpError>)
    ensures r.Fail? <==> AllSpace(value)
    ensures r.Fail? ==> r.error == HttpError(400, fieldName + "不能为空")
  {
    StripEmptyIffAllSpace(value);
    if value == "" || Strip(value) == "" then Fail(HttpError(400, fieldName + "不能为空")) else Pass
  }

  /**
   * The segment `email.split('@')[1]` inspects: what follows the first '@',
   * up to the next '@' or the end.
   */
  function DomainSegment(email: string): (d: string)
    requires '@' in email
    ensures '@' !in d
  {
    var k := IndexOfChar(email, '@').value;
    var rest := email[k + 1..];
    match IndexOfChar(rest, '@')
    case None => rest
    case Some(j) => rest[..j]
  }

  /** `split('@')[1]` is exactly the segment between the first '@' and the next one (or the end). */
  lemma SplitSecondIsDomainSegment(email: string)
    requires '@' in email
    ensures Split(email, '@')[1] == DomainSegment(email)
  {
    var k := IndexOfChar(email, '@').value;
    var rest := email[k + 1..];
    assert Split(email, '@') == [email[..k]] + Split(rest, '@');
  }

  /** `validate_email_format`: non-empty, with an '@', and a '.' in the segment after the first '@'. */
  function ValidateEmailFormat(email: string): (r: Outcome<HttpError>)
    ensures r.Fail? <==> email == "" || '@' !in email || '.' !in DomainSegment(email)
    ensures r.Fail? ==> r.error == INVALID_EMAIL
  {
    if email == "" || '@' !in email then
      Fail(INVALID_EMAIL)
    else
      SplitSecondIsDomainSegment(email);
      if '.' !in Split(email, '@')[1] then Fail(INVALID_EMAIL) else Pass
  }

  /** Only the segment right after the first '@' counts: a dot after a second '@' does not help. */
  lemma SecondAtHidesDomain()
    ensures ValidateEmailFormat("a@b@c.d").Fail?
  {
    var e := "a@b@c.d";
    assert e[..1] == "a";
    IndexOfCharAt(e, '@', 1);
    var rest := e[2..];
    assert rest == "b@c.d" && rest[..1] == "b";
    IndexOfCharAt(rest, '@', 1);
    assert DomainSegment(e) == "b";
  }

  /** A dot before the '@' does not count either. */
  lemma DotBeforeAtIgnored()
    ensures ValidateEmailFormat("a.b@c").Fail?
  {
    var e := "a.b@c";
    assert e[..3] == "a.b";
    IndexOfCharAt(e, '@', 3);
    assert e[4..] == "c";
    assert DomainSegment(e) == "c";
  }

  /** An ordinary address passes. */
  lemma OrdinaryEmailPasses()
    ensures ValidateEmailFormat("me@x.cn") == Pass
  {
    var e := "me@x.cn";
    assert e[..2] == "me";
    IndexOfCharAt(e, '@', 2);
    var rest := e[3..];
    assert rest == "x.cn" && rest[1] == '.';
    assert IndexOfChar(rest, '@') == None;
    assert DomainSegment(e) == rest;
    assert '.' in DomainSegment(e);
    assert !ValidateEmailFormat(e).Fail?;
  }
}
