/** The response envelope and the pagination clamp of
    src/utils/responseHandler.js, with JavaScript's `parseInt(s, 10)`. */
module Response {
  import opened Common

  /** The body `sendResponse` writes. `error` is present only when a truthy
      error was given; the timestamp is the caller's clock reading. */
  datatype Envelope = Envelope(status: int, success: bool, message: string, data: Value,
                               error: Option<string>, timestamp: string)

  /** `sendResponse(res, statusCode, success, message, data, error)`. */
  function SendResponse(status: int, success: bool, message: string, data: Value,
                        error: Option<string>, timestamp: string): (e: Envelope)
    ensures e.status == status && e.success == success && e.message == message && e.data == data
    ensures e.error.Some? <==> Truthy(error)
    ensures e.error.Some? ==> e.error == error
  {
    Envelope(status, success, message, data, if Truthy(error) then error else None, timestamp)
  }

  /** `sendSuccess(res, data, message = 'Success', statusCode = 200)`. */
  function SendSuccess(data: Value, timestamp: string, message: string := "Success", status: int := 200): (e: Envelope)
    ensures e.success && e.error.None? && e.data == data && e.status == status && e.message == message
  {
    SendResponse(status, true, message, data, None, timestamp)
  }

  /** `sendError(res, message, statusCode = 400, error = null)`. */
  function SendError(message: string, timestamp: string, status: int := 400, error: Option<string> := None): (e: Envelope)
    ensures !e.success && e.data == Null && e.status == status && e.message == message
    ensures e.error.Some? <==> Truthy(error)
  {
    SendResponse(status, false, message, Null, error, timestamp)
  }

  /** The defaults: a success is a 200 titled `Success`, an error a 400
      without an `error` key. */
  lemma EnvelopeDefaults(data: Value, message: string, timestamp: string)
    ensures SendSuccess(data, timestamp).status == 200 && SendSuccess(data, timestamp).message == "Success"
    ensures SendError(message, timestamp).status == 400 && SendError(message, timestamp).error.None?
  {
  }

  predicate IsDigit(c: char)
  {
    '0' <= c <= '9'
  }

  /** The longest prefix of decimal digits. */
  function LeadingDigits(s: string): (r: string)
    ensures |r| <= |s| && r == s[..|r|]
    ensures forall i :: 0 <= i < |r| ==> IsDigit(r[i])
    ensures |r| < |s| ==> !IsDigit(s[|r|])
  {
    if |s| > 0 && IsDigit(s[0]) then [s[0]] + LeadingDigits(s[1..]) else []
  }

  /** The number a string of decimal digits denotes. */
  function DigitsValue(ds: string): nat
    requires forall i :: 0 <= i < |ds| ==> IsDigit(ds[i])
  {
    if |ds| == 0 then 0
    else
      assert IsDigit(ds[|ds| - 1]);
      10 * DigitsValue(ds[..|ds| - 1]) + (ds[|ds| - 1] as int - '0' as int)
  }

  /** `parseInt(s, 10)`: leading whitespace, an optional sign, then the
      longest run of digits; `None` is `NaN` (no digit at all). */
  function ParseInt(s: string): (r: Option<int>)
    ensures r.Some? <==> |LeadingDigits(Unsigned(TrimStart(s)))| > 0
  {
    var t := TrimStart(s);
    var ds := LeadingDigits(Unsigned(t));
    if |ds| == 0 then None
    else if |t| > 0 && t[0] == '-' then Some(-(DigitsValue(ds) as int))
    else Some(DigitsValue(ds))
  }

  /** The text after an optional leading sign. */
  function Unsigned(t: string): string
  {
    if |t| > 0 && (t[0] == '+' || t[0] == '-') then t[1..] else t
  }

  /** The decimal digits of `n`, most significant first. */
  function Show(n: nat): (r: string)
    ensures |r| > 0 && forall i :: 0 <= i < |r| ==> IsDigit(r[i])
  {
    if n < 10 then [('0' as int + n) as char] else Show(n / 10) + [('0' as int + n % 10) as char]
  }

  lemma {:induction false} ShowValue(n: nat)
    ensures DigitsValue(Show(n)) == n
  {
    if n >= 10 {
      var s := Show(n);
      assert s[..|s| - 1] == Show(n / 10);
      ShowValue(n / 10);
    }
  }

  lemma {:induction false} AllDigitsLeading(ds: string)
    requires forall i :: 0 <= i < |ds| ==> IsDigit(ds[i])
    ensures LeadingDigits(ds) == ds
  {
    if |ds| > 0 {
      AllDigitsLeading(ds[1..]);
      assert ds == [ds[0]] + ds[1..];
    }
  }

  /** `parseInt` reads back what a number prints as, with or without a sign. */
  lemma ParseIntShow(n: nat)
    ensures ParseInt(Show(n)) == Some(n)
    ensures ParseInt("-" + Show(n)) == Some(-(n as int))
  {
    var s := Show(n);
    ShowValue(n);
    AllDigitsLeading(s);
    assert !IsSpace(s[0]) && !(s[0] == '+' || s[0] == '-');
    var m := "-" + s;
    assert m[1..] == s;
    assert TrimStart(m) == m;
  }

  /** `parseInt` stops at the first character that is not a digit. */
  lemma ParseIntStopsAtNonDigit(n: nat, rest: string)
    requires |rest| > 0 && !IsDigit(rest[0])
    ensures ParseInt(Show(n) + rest) == Some(n)
  {
    var s := Show(n);
    ShowValue(n);
    var t := s + rest;
    assert !IsSpace(t[0]) && !(t[0] == '+' || t[0] == '-');
    LeadingDigitsOfConcat(s, rest);
  }

  lemma {:induction false} LeadingDigitsOfConcat(ds: string, rest: string)
    requires forall i :: 0 <= i < |ds| ==> IsDigit(ds[i])
    requires |rest| > 0 && !IsDigit(rest[0])
    ensures LeadingDigits(ds + rest) == ds
  {
    if |ds| > 0 {
      assert (ds + rest)[1..] == ds[1..] + rest;
      LeadingDigitsOfConcat(ds[1..], rest);
      assert ds == [ds[0]] + ds[1..];
    } else {
      assert ds + rest == rest;
    }
  }

  /** JavaScript `n || d` on a number that may be `NaN`: `NaN` and `0` are falsy. */
  function OrDefault(n: Option<int>, d: int): int
  {
    if n.Some? && n.value != 0 then n.value else d
  }

  datatype Pagination = Pagination(page: int, limit: int, skip: int)

  /** `getPaginationParams(query, defaultLimit = 20)`; an absent query field
      is `None` (`parseInt(undefined)` is `NaN`). */
  function GetPaginationParams(page: Option<string>, limit: Option<string>, defaultLimit: int := 20): (p: Pagination)
    ensures p.page >= 1 && p.limit <= 100
    ensures p.skip == (p.page - 1) * p.limit
  {
    var pg := Max(1, OrDefault(if page.Some? then ParseInt(page.value) else None, 1));
    var lim := Min(100, OrDefault(if limit.Some? then ParseInt(limit.value) else None, defaultLimit));
    Pagination(pg, lim, (pg - 1) * lim)
  }

  /** `Math.ceil(a / b)` on integers. */
  function CeilDiv(a: int, b: int): (q: int)
    requires b != 0
    ensures b > 0 ==> (q - 1) * b < a <= q * b
    ensures b < 0 ==> q * b <= a < (q - 1) * b
  {
    if b > 0 then
      var m := (-a) / b;
      assert -a == m * b + (-a) % b;
      -m
    else
      var m := a / (-b);
      assert a == m * (-b) + a % (-b);
      -m
  }

  /** `Math.ceil(total / limit)` as a page count: `None` when it is not a
      finite number (a zero limit). */
  function PageCount(total: nat, limit: int): (p: Option<int>)
    ensures p.Some? <==> limit != 0
    ensures limit > 0 ==> (p.value - 1) * limit < total <= p.value * limit
  {
    if limit == 0 then None else Some(CeilDiv(total, limit))
  }

  /** Limits never come out as 0: a zero limit falls back to the default. */
  lemma LimitNonZero(page: Option<string>, limit: Option<string>, defaultLimit: int)
    requires defaultLimit != 0
    ensures GetPaginationParams(page, limit, defaultLimit).limit != 0
  {
  }

  function Max(a: int, b: int): int { if a < b then b else a }
  function Min(a: int, b: int): int { if a < b then a else b }

  /** A positive page is kept; a missing, zero, negative or non-numeric page becomes 1. */
  lemma PageClamp(page: Option<string>, limit: Option<string>, defaultLimit: int)
    ensures var n := if page.Some? then ParseInt(page.value) else None;
      GetPaginationParams(page, limit, defaultLimit).page == (if n.Some? && n.value >= 1 then n.value else 1)
  {
  }

  /** A limit up to 100 is kept, even a negative one; a larger one becomes
      100; a missing, zero or non-numeric limit becomes the default (capped
      at 100). */
  lemma LimitClamp(page: Option<string>, limit: Option<string>, defaultLimit: int)
    ensures var n := if limit.Some? then ParseInt(limit.value) else None;
      GetPaginationParams(page, limit, defaultLimit).limit ==
        (if n.Some? && n.value != 0 then Min(100, n.value) else Min(100, defaultLimit))
  {
  }

  /** A negative numeric limit passes through, and the skip is negative
      with it from page 2 on. */
  lemma NegativeLimitPassesThrough(page: string, limit: string, defaultLimit: int, pg: int, n: int)
    requires ParseInt(page) == Some(pg) && pg >= 2
    requires ParseInt(limit) == Some(n) && n < 0
    ensures GetPaginationParams(Some(page), Some(limit), defaultLimit).limit == n
    ensures GetPaginationParams(Some(page), Some(limit), defaultLimit).skip < 0
  {
    NegativeProduct(pg - 1, -n);
  }

  lemma NegativeProduct(a: int, b: int)
    requires a > 0 && b > 0
    ensures a * -b < 0
  {
  }

  /** The skip is never negative when the limit is not. */
  lemma SkipNonNegative(page: Option<string>, limit: Option<string>, defaultLimit: int)
    requires GetPaginationParams(page, limit, defaultLimit).limit >= 0
    ensures GetPaginationParams(page, limit, defaultLimit).skip >= 0
  {
    var p := GetPaginationParams(page, limit, defaultLimit);
    NonNegativeProduct(p.page - 1, p.limit);
  }

  /** The `pagination` object of a listing. */
  datatype PageInfo = PageInfo(total: nat, pages: Option<int>, currentPage: int, limit: int)

  /** The store's refusal of a negative `skip`. */
  const NegativeSkip := "skip requires a non-negative argument"

  function Abs(n: int): nat { if n < 0 then -n else n }

  /** `.skip(skip).limit(limit)` on a listing: a negative skip is refused; a
      zero limit means no limit, and a negative one returns at most its
      absolute value. */
  function Window<T>(xs: seq<T>, skip: int, limit: int): (r: Result<seq<T>>)
    ensures r.Err? <==> skip < 0
    ensures r.Ok? ==> forall k :: 0 <= k < |r.value| ==> skip + k < |xs| && r.value[k] == xs[skip + k]
    ensures r.Ok? ==> |r.value| == (if skip >= |xs| then 0
                                    else if limit == 0 || |xs| - skip <= Abs(limit) then |xs| - skip
                                    else Abs(limit))
  {
    if skip < 0 then Err(NegativeSkip)
    else if skip >= |xs| then Ok([])
    else if limit == 0 || |xs| - skip <= Abs(limit) then Ok(xs[skip..])
    else Ok(xs[skip..skip + Abs(limit)])
  }

  /** With a positive limit, the item at index `i` is on page `i / limit + 1`,
      and that page is at most `Math.ceil(total / limit)`: the page count
      reaches every item. */
  lemma PagesCoverListing<T>(xs: seq<T>, limit: int, i: int)
    requires limit > 0 && 0 <= i < |xs|
    ensures var page := i / limit + 1;
      1 <= page <= PageCount(|xs|, limit).value &&
      Window(xs, (page - 1) * limit, limit).Ok? &&
      0 <= i - (page - 1) * limit < |Window(xs, (page - 1) * limit, limit).value| &&
      Window(xs, (page - 1) * limit, limit).value[i - (page - 1) * limit] == xs[i]
  {
    var q := i / limit;
    assert i == q * limit + i % limit;
    assert q * limit <= i < q * limit + limit;
    var pages := PageCount(|xs|, limit).value;
    assert (pages - 1) * limit < |xs| <= pages * limit;
    if q + 1 > pages {
      assert pages * limit <= q * limit by {
        assert pages <= q;
        MonotoneProduct(pages, q, limit);
      }
    }
    assert q >= 0;
    NonNegativeProduct(q, limit);
  }

  lemma MonotoneProduct(a: int, b: int, c: int)
    requires a <= b && c >= 0
    ensures a * c <= b * c
  {
  }

  lemma NonNegativeProduct(a: int, b: int)
    requires a >= 0 && b >= 0
    ensures a * b >= 0
  {
  }
}
