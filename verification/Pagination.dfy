/** Bounded page-token pagination against an arbitrary server (collection/sourcecraft.py). */
module Pagination {
  import opened Wrappers

  // ---- One request, with retries ----

  datatype Item = Row(content: string) | NotAnObject

  datatype Token = Missing | NotText | Text(text: string)

  /** The parts of a JSON object that pagination reads; `rows` is None unless the key holds an array. */
  datatype Payload = Payload(rows: Option<seq<Item>>, next: Token)

  /** One try: the transport failed or the body was no JSON, or a status came back with a JSON body. */
  datatype Attempt = Broken | Answered(status: int, payload: Option<Payload>)

  datatype Response = Available(payload: Payload) | NotFound

  predicate Transient(a: Attempt) {
    a.Broken? || a.status == 429 || a.status >= 500
  }

  function Interpret(a: Attempt): Result<Response>
    requires !Transient(a)
  {
    if a.status == 401 || a.status == 403 then Err(SourceCraftAuthError)
    else if a.status == 404 then Ok(NotFound)
    else if a.status < 200 || a.status >= 300 then Err(SourceCraftUnavailableError)
    else if a.payload.None? then Err(SourceCraftPayloadError)
    else Ok(Available(a.payload.value))
  }

  function Fetch(attempts: nat -> Attempt, k: nat, last: nat): Result<Response>
    decreases last - k
  {
    if !Transient(attempts(k)) then Interpret(attempts(k))
    else if k >= last then Err(SourceCraftUnavailableError)
    else Fetch(attempts, k + 1, last)
  }

  function PowerOfTwo(n: nat): real {
    if n == 0 then 1.0 else 2.0 * PowerOfTwo(n - 1)
  }

  /** The pause after the first n + 1 attempts: `backoff * 2**n`. */
  function Pause(backoff: real, n: nat): real {
    backoff * PowerOfTwo(n)
  }

  /** Pauses that start at the backoff, each twice as long as the one before. */
  ghost predicate Doubling(pauses: seq<real>, backoff: real) {
    (pauses != [] ==> pauses[0] == backoff) && forall k :: 1 <= k < |pauses| ==> pauses[k] == 2.0 * pauses[k - 1]
  }

  lemma PausesDouble(backoff: real, n: nat)
    ensures Pause(backoff, 0) == backoff && Pause(backoff, n + 1) == 2.0 * Pause(backoff, n)
  {
    var p := PowerOfTwo(n);
    assert backoff * (2.0 * p) == 2.0 * (backoff * p);
  }

  lemma NoPauses(backoff: real)
    ensures Doubling([], backoff)
  {}

  lemma OneMorePause(pauses: seq<real>, backoff: real)
    requires Doubling(pauses, backoff) && forall k :: 0 <= k < |pauses| ==> pauses[k] == Pause(backoff, k)
    ensures Doubling(pauses + [Pause(backoff, |pauses|)], backoff)
  {
    hide Pause;
    PausesDouble(backoff, if pauses == [] then 0 else |pauses| - 1);
  }

  /** `get_json`: only transient outcomes are retried, the first other outcome decides, and the pauses double. */
  method GetJson(attempts: nat -> Attempt, retryAttempts: nat, backoff: real)
    returns (r: Result<Response>, used: nat, pauses: seq<real>)
    requires 1 <= retryAttempts
    ensures r == Fetch(attempts, 1, retryAttempts)
    ensures 1 <= used <= retryAttempts && forall k :: 1 <= k < used ==> Transient(attempts(k))
    ensures if Transient(attempts(used)) then used == retryAttempts && r == Err(SourceCraftUnavailableError)
            else r == Interpret(attempts(used))
    ensures |pauses| == (if backoff == 0.0 then 0 else used - 1)
    ensures forall k :: 0 <= k < |pauses| ==> pauses[k] == Pause(backoff, k)
    ensures Doubling(pauses, backoff)
  {
    hide Pause, Interpret, Doubling;
    NoPauses(backoff);
    used, pauses := 1, [];
    while true
      invariant 1 <= used <= retryAttempts && forall k :: 1 <= k < used ==> Transient(attempts(k))
      invariant Fetch(attempts, used, retryAttempts) == Fetch(attempts, 1, retryAttempts)
      invariant |pauses| == (if backoff == 0.0 then 0 else used - 1)
      invariant forall k :: 0 <= k < |pauses| ==> pauses[k] == Pause(backoff, k)
      invariant Doubling(pauses, backoff)
      decreases retryAttempts - used
    {
      var a := attempts(used);
      if !Transient(a) { return Interpret(a), used, pauses; }
      if used >= retryAttempts { return Err(SourceCraftUnavailableError), used, pauses; }
      var delay := Pause(backoff, used - 1);
      if backoff != 0.0 {
        OneMorePause(pauses, backoff);
        pauses := pauses + [delay];
      }
      used := used + 1;
    }
  }

  /** What a call gives, by the answers. Broken answers, 429 and 500 and above are asked again; the first other answer,
      or the last one allowed, decides: 401 and 403 are refusals, 404 is an absent resource, 2xx needs an object, and
      everything else is unavailable. */
  lemma {:induction false} DecidedBy(attempts: nat -> Attempt, first: nat, used: nat, last: nat)
    requires first <= used <= last
    requires forall k :: first <= k < used ==>
               !(attempts(k).Answered? && attempts(k).status != 429 && attempts(k).status < 500)
    requires used == last || (attempts(used).Answered? && attempts(used).status != 429 && attempts(used).status < 500)
    ensures Fetch(attempts, first, last) ==
              match attempts(used)
              case Broken => Err(SourceCraftUnavailableError)
              case Answered(401, _) => Err(SourceCraftAuthError)
              case Answered(403, _) => Err(SourceCraftAuthError)
              case Answered(404, _) => Ok(NotFound)
              case Answered(status, payload) =>
                if !(200 <= status <= 299) then Err(SourceCraftUnavailableError)
                else if payload.None? then Err(SourceCraftPayloadError)
                else Ok(Available(payload.value))
    decreases used - first
  {
    if first < used {
      assert Transient(attempts(first));
      DecidedBy(attempts, first + 1, used, last);
    }
  }

  // ---- The token chain ----

  /** What a server answers to the n-th request, made with the given page token, at each attempt. */
  datatype Remote = Remote(answers: (nat, Option<string>, nat) -> Attempt, retryAttempts: nat)

  predicate Space(c: char) {
    || '\U{0009}' <= c <= '\U{000d}' || '\U{001c}' <= c <= '\U{0020}' || c == '\U{0085}' || c == '\U{00a0}' ||
      c == '\U{1680}'
    || '\U{2000}' <= c <= '\U{200a}' || c in {'\U{2028}', '\U{2029}', '\U{202f}', '\U{205f}', '\U{3000}'}
  }

  predicate Blank(text: string) {
    forall c :: c in text ==> Space(c)
  }

  function Leading(items: seq<Item>): seq<string> {
    if items == [] || items[0].NotAnObject? then [] else [items[0].content] + Leading(items[1..])
  }

  /** The code points Python counts as white space. */
  const STRIPPED: set<int> :=
    {9, 10, 11, 12, 13, 28, 29, 30, 31, 32, 133, 160, 5760, 8192, 8193, 8194, 8195, 8196, 8197, 8198, 8199, 8200, 8201,
     8202, 8232, 8233, 8239, 8287, 12288}

  /** A text is blank exactly when every character has one of these code points. */
  lemma BlankTexts(text: string)
    ensures Blank(text) <==> forall c :: c in text ==> c as int in STRIPPED
  {
    hide Space;
    forall c | c in text { SpaceCodes(c); }
  }

  lemma SpaceCodes(c: char)
    ensures Space(c) <==> c as int in STRIPPED
  {}

  /** The rows of a list are the contents up to the first item that is no object. */
  lemma {:induction false} LeadingContents(items: seq<Item>)
    ensures |Leading(items)| <= |items|
    ensures forall i :: 0 <= i < |Leading(items)| ==> items[i] == Row(Leading(items)[i])
    ensures |Leading(items)| < |items| ==> items[|Leading(items)|] == NotAnObject
  {
    if items != [] && items[0].Row? { LeadingContents(items[1..]); }
  }

  predicate WellFormed(items: seq<Item>) {
    forall i :: 0 <= i < |items| ==> items[i].Row?
  }

  function Attempts(remote: Remote, n: nat, token: Option<string>): nat -> Attempt {
    (k: nat) => remote.answers(n, token, k)
  }

  /** The token sent with request n: none at first, then the one the previous page named. */
  function Asked(remote: Remote, n: nat): Option<string>
    decreases n, 0
  {
    if n == 0 then None
    else
      var before := Page(remote, n - 1);
      if before.Ok? && before.value.Available? && before.value.payload.next.Text?
      then Some(before.value.payload.next.text) else None
  }

  function Page(remote: Remote, n: nat): Result<Response>
    decreases n, 1
  {
    Fetch(Attempts(remote, n, Asked(remote, n)), 1, remote.retryAttempts)
  }

  predicate Sound(page: Result<Response>) {
    page.Ok? && page.value.Available? && page.value.payload.rows.Some? && WellFormed(page.value.payload.rows.value)
  }

  /** A sound page that names a further page. */
  predicate Links(page: Result<Response>) {
    Sound(page) && page.value.payload.next.Text? && !Blank(page.value.payload.next.text)
  }

  /** A sound page that names none: the token is absent or blank. */
  predicate Ends(page: Result<Response>) {
    Sound(page) &&
      (page.value.payload.next.Missing? || (page.value.payload.next.Text? && Blank(page.value.payload.next.text)))
  }

  function RowsOf(page: Result<Response>): seq<string> {
    if page.Ok? && page.value.Available? && page.value.payload.rows.Some? then Leading(page.value.payload.rows.value)
    else []
  }

  function AllRows(remote: Remote, n: nat): seq<string> {
    if n == 0 then [] else AllRows(remote, n - 1) + RowsOf(Page(remote, n - 1))
  }

  ghost predicate Fresh(remote: Remote, n: nat) {
    forall k :: 1 <= k < n ==> Asked(remote, k) != Asked(remote, n)
  }

  /** Requests 0 to n - 1 follow one another: each page but the last names the next, by a new token. */
  ghost predicate Chain(remote: Remote, n: nat) {
    forall k :: 1 <= k < n ==> Links(Page(remote, k - 1)) && Fresh(remote, k)
  }

  // ---- What pagination returns ----

  datatype Limitation = SourceNotFound | RowsCapped | PagesCapped

  datatype PageSet = PageSet(rows: seq<string>, responses: seq<Response>, complete: bool,
                             limitation: Option<Limitation>)

  ghost predicate Answers(remote: Remote, responses: seq<Response>) {
    forall k :: 0 <= k < |responses| ==> Page(remote, k) == Ok(responses[k])
  }

  ghost predicate StopsWell(remote: Remote, maxPages: nat, maxRows: nat, n: nat, s: PageSet)
    requires 1 <= n
  {
    && |s.responses| == n && Answers(remote, s.responses)
    && (s.complete <==> s.limitation.None?)
    && match s.limitation
       case None => Ends(Page(remote, n - 1)) && s.rows == AllRows(remote, n) && |s.rows| < maxRows
       case Some(SourceNotFound) => Page(remote, n - 1) == Ok(NotFound) && s.rows == AllRows(remote, n - 1)
       case Some(RowsCapped) => |s.rows| == maxRows && AllRows(remote, n - 1) <= s.rows <= AllRows(remote, n)
       case Some(PagesCapped) =>
         && n == maxPages && Links(Page(remote, n - 1)) && Fresh(remote, n)
         && s.rows == AllRows(remote, n) && |s.rows| < maxRows
  }

  ghost predicate StopsBadly(remote: Remote, maxRows: nat, n: nat, e: Error)
    requires 1 <= n
  {
    var page := Page(remote, n - 1);
    || page == Err(e)
    || (&& e == SourceCraftPayloadError
        && page.Ok? && page.value.Available? && |AllRows(remote, n)| < maxRows
        && (!Sound(page) || page.value.payload.next.NotText? || (Links(page) && !Fresh(remote, n))))
  }

  /** Pagination that stops after request n with result r. */
  ghost predicate StopsAfter(remote: Remote, maxPages: nat, maxRows: nat, n: nat, r: Result<PageSet>) {
    && 1 <= n <= maxPages && Chain(remote, n) && |AllRows(remote, n - 1)| < maxRows
    && match r
       case Ok(s) => StopsWell(remote, maxPages, maxRows, n, s)
       case Err(e) => StopsBadly(remote, maxRows, n, e)
  }

  ghost predicate Collected(remote: Remote, maxPages: nat, maxRows: nat, r: Result<PageSet>) {
    exists n: nat :: StopsAfter(remote, maxPages, maxRows, n, r)
  }

  lemma NoChain(remote: Remote)
    ensures Chain(remote, 0) && AllRows(remote, 0) == [] && Asked(remote, 0) == None
  {}

  lemma PageIs(remote: Remote, n: nat)
    ensures Page(remote, n) == Fetch(Attempts(remote, n, Asked(remote, n)), 1, remote.retryAttempts)
  {
    hide Fetch, Asked;
  }

  lemma NextAsked(remote: Remote, n: nat)
    requires Links(Page(remote, n))
    ensures Asked(remote, n + 1) == Some(Page(remote, n).value.payload.next.text)
  {
    hide Page, Blank, WellFormed;
  }

  lemma FreshIs(remote: Remote, n: nat, seen: set<string>)
    requires forall t :: t in seen <==> exists k :: 1 <= k < n && Asked(remote, k) == Some(t)
    requires n >= 1 && Asked(remote, n).Some?
    ensures Fresh(remote, n) <==> Asked(remote, n).value !in seen
  {
    hide Asked;
  }

  lemma ChainGrows(remote: Remote, n: nat)
    requires Chain(remote, n) && (n > 0 ==> Links(Page(remote, n - 1)) && Fresh(remote, n))
    ensures Chain(remote, n + 1)
  {
    hide Page, Links, Fresh;
    forall k | 1 <= k < n + 1 ensures Links(Page(remote, k - 1)) && Fresh(remote, k) {
      if k < n { assert Fresh(remote, k); } else { assert k == n && n > 0; }
    }
  }

  // ---- The loops ----

  datatype Stop = Malformed | Full | Done

  method TakeRows(items: seq<Item>, rows: seq<string>, maxRows: nat) returns (taken: seq<string>, stop: Stop)
    requires |rows| < maxRows
    ensures stop == Done ==> WellFormed(items) && taken == rows + Leading(items) && |taken| < maxRows
    ensures stop == Full ==> |taken| == maxRows && rows <= taken <= rows + Leading(items)
    ensures stop == Malformed ==> !WellFormed(items) && |rows + Leading(items)| < maxRows
  {
    taken := rows;
    for i := 0 to |items|
      invariant |taken| < maxRows && rows <= taken
      invariant rows + Leading(items) == taken + Leading(items[i..])
      invariant forall k :: 0 <= k < i ==> items[k].Row?
    {
      assert items[i..][1..] == items[i + 1..];
      if items[i].NotAnObject? { return taken, Malformed; }
      assert taken + Leading(items[i..]) == taken + [items[i].content] + Leading(items[i + 1..]);
      taken := taken + [items[i].content];
      if |taken| >= maxRows { return taken, Full; }
    }
    stop := Done;
  }

  method GetJsonPages(remote: Remote, backoff: real, rowsKey: string, maxPages: int, maxRows: int)
    returns (r: Result<PageSet>)
    requires 1 <= remote.retryAttempts
    ensures rowsKey == "" || maxPages <= 0 || maxRows <= 0 ==> r == Err(ValueError)
    ensures rowsKey != "" && maxPages > 0 && maxRows > 0 ==> Collected(remote, maxPages, maxRows, r)
  {
    hide Fetch, Attempts, Blank, Leading, WellFormed, Space, Pause, Interpret, Transient, Doubling,
         Chain, AllRows, Page, Asked, Fresh;
    if rowsKey == "" || maxPages <= 0 || maxRows <= 0 { return Err(ValueError); }
    var rows: seq<string>, responses: seq<Response> := [], [];
    var seen: set<string>, token: Option<string> := {}, None;
    NoChain(remote);
    for n := 0 to maxPages
      invariant token == Asked(remote, n) && rows == AllRows(remote, n) && |rows| < maxRows
      invariant |responses| == n && Answers(remote, responses) && Chain(remote, n)
      invariant n > 0 ==> Links(Page(remote, n - 1)) && Fresh(remote, n) && |AllRows(remote, n - 1)| < maxRows
      invariant forall t :: t in seen <==> exists k :: 1 <= k <= n && Asked(remote, k) == Some(t)
    {
      var reply, used, pauses := GetJson(Attempts(remote, n, token), remote.retryAttempts, backoff);
      PageIs(remote, n);
      ChainGrows(remote, n);
      LastPage(remote, n + 1);
      if reply.Err? {
        r := Err(reply.error);
        assert StopsAfter(remote, maxPages, maxRows, n + 1, r);
        return;
      }
      responses := responses + [reply.value];
      if reply.value.NotFound? {
        r := Ok(PageSet(rows, responses, false, Some(SourceNotFound)));
        assert StopsAfter(remote, maxPages, maxRows, n + 1, r);
        return;
      }
      var payload := reply.value.payload;
      if payload.rows.None? {
        r := Err(SourceCraftPayloadError);
        assert StopsAfter(remote, maxPages, maxRows, n + 1, r);
        return;
      }
      var stop;
      rows, stop := TakeRows(payload.rows.value, rows, maxRows);
      if stop == Malformed {
        r := Err(SourceCraftPayloadError);
        assert StopsAfter(remote, maxPages, maxRows, n + 1, r);
        return;
      }
      if stop == Full {
        r := Ok(PageSet(rows, responses, false, Some(RowsCapped)));
        assert StopsAfter(remote, maxPages, maxRows, n + 1, r);
        return;
      }
      if payload.next.Missing? || (payload.next.Text? && Blank(payload.next.text)) {
        r := Ok(PageSet(rows, responses, true, None));
        assert StopsAfter(remote, maxPages, maxRows, n + 1, r);
        return;
      }
      if payload.next.Text? {
        NextAsked(remote, n);
        FreshIs(remote, n + 1, seen);
      }
      if payload.next.NotText? || payload.next.text in seen {
        r := Err(SourceCraftPayloadError);
        assert StopsAfter(remote, maxPages, maxRows, n + 1, r);
        return;
      }
      seen, token := seen + {payload.next.text}, Some(payload.next.text);
    }
    r := Ok(PageSet(rows, responses, false, Some(PagesCapped)));
    assert StopsAfter(remote, maxPages, maxRows, maxPages, r);
  }

  // ---- What follows, for every server ----

  lemma {:induction false} AllRowsGrow(remote: Remote, m: nat, n: nat)
    requires m <= n
    ensures AllRows(remote, m) <= AllRows(remote, n)
  {
    hide Page, RowsOf;
    if m < n { AllRowsGrow(remote, m, n - 1); }
  }

  /** Pagination cannot stop after m requests and also go on past them. */
  lemma StopsOnce(remote: Remote, maxPages: nat, maxRows: nat, m: nat, r: Result<PageSet>, n: nat)
    requires m < n <= maxPages && Chain(remote, n) && |AllRows(remote, n - 1)| < maxRows
    ensures !StopsAfter(remote, maxPages, maxRows, m, r)
  {
    hide Page, Blank, WellFormed, AllRows, Fresh;
    if m >= 1 { assert Fresh(remote, m) && Links(Page(remote, m - 1)); }
    AllRowsGrow(remote, m, n - 1);
  }

  lemma SameStop(remote: Remote, maxPages: nat, maxRows: nat, n: nat, r: Result<PageSet>, s: Result<PageSet>)
    requires StopsAfter(remote, maxPages, maxRows, n, r) && StopsAfter(remote, maxPages, maxRows, n, s)
    ensures r == s
  {
    hide Page, Blank, AllRows, Fresh, Chain;
    if r.Ok? && s.Ok? {
      SameResponses(remote, r.value.responses, s.value.responses);
      assert r.value.rows == s.value.rows by { SameRows(remote, maxPages, maxRows, n, r.value, s.value); }
    }
    AllRowsGrow(remote, n - 1, n);
    LastPage(remote, n);
  }

  lemma LastPage(remote: Remote, n: nat)
    requires n >= 1
    ensures AllRows(remote, n) == AllRows(remote, n - 1) + RowsOf(Page(remote, n - 1))
  {
    hide Page, RowsOf;
  }

  lemma SameResponses(remote: Remote, a: seq<Response>, b: seq<Response>)
    requires |a| == |b| && Answers(remote, a) && Answers(remote, b)
    ensures a == b
  {
    hide Page;
    forall k | 0 <= k < |a| ensures a[k] == b[k] { assert Ok(a[k]) == Page(remote, k) == Ok(b[k]); }
  }

  lemma SameRows(remote: Remote, maxPages: nat, maxRows: nat, n: nat, a: PageSet, b: PageSet)
    requires 1 <= n && StopsWell(remote, maxPages, maxRows, n, a) && StopsWell(remote, maxPages, maxRows, n, b)
    requires |AllRows(remote, n - 1)| < maxRows
    ensures a.rows == b.rows
  {
    hide Page, Blank, AllRows, Fresh, Answers, WellFormed;
    LastPage(remote, n);
    if a.limitation == Some(RowsCapped) && b.limitation == Some(RowsCapped) {
      assert a.rows == AllRows(remote, n)[..maxRows] == b.rows;
    }
  }

  /** The limits and the server's answers determine the result completely. */
  lemma OneResult(remote: Remote, maxPages: nat, maxRows: nat, r: Result<PageSet>, s: Result<PageSet>)
    requires Collected(remote, maxPages, maxRows, r) && Collected(remote, maxPages, maxRows, s)
    ensures r == s
  {
    hide StopsWell, StopsBadly;
    var m: nat :| StopsAfter(remote, maxPages, maxRows, m, r);
    var n: nat :| StopsAfter(remote, maxPages, maxRows, n, s);
    if m < n { StopsOnce(remote, maxPages, maxRows, m, r, n); }
    if n < m { StopsOnce(remote, maxPages, maxRows, n, s, m); }
    SameStop(remote, maxPages, maxRows, n, r, s);
  }

  /** A chain of n sound pages, each named by a new token, the last naming none. */
  ghost predicate WholeChain(remote: Remote, n: nat) {
    1 <= n && Chain(remote, n) && Ends(Page(remote, n - 1))
  }

  /** The result is marked complete exactly when the server has a whole chain of at most maxPages pages with
      fewer than maxRows rows in all. */
  lemma CompleteExactly(remote: Remote, maxPages: nat, maxRows: nat, r: Result<PageSet>)
    requires Collected(remote, maxPages, maxRows, r)
    ensures r.Ok? && r.value.complete <==>
            exists n: nat :: n <= maxPages && WholeChain(remote, n) && |AllRows(remote, n)| < maxRows
  {
    hide Page, Blank, WellFormed, AllRows, Fresh;
    var m: nat :| StopsAfter(remote, maxPages, maxRows, m, r);
    if r.Ok? && r.value.complete { assert WholeChain(remote, m); }
    if n: nat :| n <= maxPages && WholeChain(remote, n) && |AllRows(remote, n)| < maxRows {
      AllRowsGrow(remote, n - 1, n);
      var whole := Ok(PageSet(AllRows(remote, n), ResponsesOf(remote, n), true, None));
      assert StopsAfter(remote, maxPages, maxRows, n, whole);
      OneResult(remote, maxPages, maxRows, r, whole);
    }
  }

  lemma WholeChainSound(remote: Remote, n: nat)
    requires WholeChain(remote, n)
    ensures forall k :: 0 <= k < n ==> Page(remote, k).Ok?
  {
    hide Page;
    forall k | 0 <= k < n ensures Page(remote, k).Ok? {
      if k < n - 1 { assert Fresh(remote, k + 1); }
    }
  }

  /** The pages of a whole chain. */
  ghost function ResponsesOf(remote: Remote, n: nat): (responses: seq<Response>)
    requires WholeChain(remote, n)
    ensures |responses| == n && Answers(remote, responses)
  {
    WholeChainSound(remote, n);
    seq(n, k requires 0 <= k < n => Page(remote, k).value)
  }

  /** Whatever was collected: the rows are a prefix of the chain's rows within the limits, and no token was
      sent twice; a complete result is the whole chain. */
  lemma CollectedIsPrefix(remote: Remote, maxPages: nat, maxRows: nat, s: PageSet)
    requires Collected(remote, maxPages, maxRows, Ok(s))
    ensures 1 <= |s.responses| <= maxPages && |s.rows| <= maxRows
    ensures s.rows <= AllRows(remote, |s.responses|)
    ensures s.complete ==>
              s.rows == AllRows(remote, |s.responses|) && |s.rows| < maxRows && WholeChain(remote, |s.responses|)
    ensures forall j, k :: 0 <= j < k < |s.responses| ==> Asked(remote, j) != Asked(remote, k)
  {
    hide Page, Blank, WellFormed, AllRows;
    var n: nat :| StopsAfter(remote, maxPages, maxRows, n, Ok(s));
    AllRowsGrow(remote, n - 1, n);
    forall j, k | 0 <= j < k < n ensures Asked(remote, j) != Asked(remote, k) { TokensDiffer(remote, n, j, k); }
  }

  lemma TokensDiffer(remote: Remote, n: nat, j: nat, k: nat)
    requires Chain(remote, n) && j < k < n
    ensures Asked(remote, j) != Asked(remote, k)
  {
    hide Fetch, Blank, WellFormed;
    assert Fresh(remote, k) && Links(Page(remote, k - 1));
  }

  /** Larger limits never change a complete result. */
  lemma LargerLimitsKeep(remote: Remote, maxPages: nat, maxRows: nat, morePages: nat, moreRows: nat, s: PageSet,
                         r: Result<PageSet>)
    requires Collected(remote, maxPages, maxRows, Ok(s)) && s.complete && maxPages <= morePages && maxRows <= moreRows
    requires Collected(remote, morePages, moreRows, r)
    ensures r == Ok(s)
  {
    hide Page, Blank, WellFormed, AllRows, Fresh;
    var n: nat :| StopsAfter(remote, maxPages, maxRows, n, Ok(s));
    assert StopsAfter(remote, morePages, moreRows, n, Ok(s));
    OneResult(remote, morePages, moreRows, r, Ok(s));
  }
}
