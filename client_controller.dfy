/**
 * The client controller (controllers/clientController.js): a new client's
 * opening ledger entry, the paging of the client list, the meeting list of a
 * client, masking and patching of stored credentials, patching one action
 * item of a meeting, and adding a service.
 */
module ClientController {
  import opened Wrappers
  import opened Ledger
  import opened Books
  import LedgerView
  import opened Text

  datatype ClientError =
    | ClientNotFound
    | ClientOrCredentialNotFound
    | InvalidActionIndex
    | ClientOrMeetingNotFound
    | ActionItemNotFound
    | KindBillingTypeStartDateRequired
    | ValidationFailed
    | CastFailed

  /* ------------------------------ createClient ----------------------------- */

  /**
   * The OPENING row `createClient` posts: none for a zero opening balance;
   * otherwise a DEBIT of a positive balance or a CREDIT of a negative one, for
   * its absolute value, with the balance itself as `balanceAfter`.
   */
  function OpeningRows(id: nat, ob: real, now: int): (rows: seq<ClientEntry>)
    ensures ob == 0.0 <==> rows == []
    ensures rows != [] ==>
      && |rows| == 1 && rows[0].owner == id && rows[0].date == now
      && rows[0].refType == OpeningRef && rows[0].refId.None?
      && rows[0].amount > 0.0 && (rows[0].amount == ob || rows[0].amount == -ob)
      && (rows[0].kind == Debit <==> ob > 0.0) && (rows[0].kind == Credit <==> ob < 0.0)
      && rows[0].balanceAfter == ob
  {
    if ob == 0.0 then []
    else [Entry(id, now, if ob > 0.0 then Debit else Credit, if ob > 0.0 then ob else -ob, ob, OpeningRef, None, "")]
  }

  /** The client's own rows of the ledger, in ledger order: what `LedgerEntry.find({ clientId })` hands the ledger table. */
  function OwnRows(ledger: seq<ClientEntry>, id: nat): (r: seq<ClientEntry>)
    ensures forall k :: 0 <= k < |r| ==> r[k].owner == id
    decreases |ledger|
  {
    if ledger == [] then []
    else
      var last := ledger[|ledger| - 1];
      OwnRows(ledger[..|ledger| - 1], id) + (if last.owner == id then [last] else [])
  }

  /** A ledger holding no row of the client gives it no rows. */
  lemma {:induction false} NoOwnRows(ledger: seq<ClientEntry>, id: nat)
    requires forall i :: 0 <= i < |ledger| ==> ledger[i].owner != id
    ensures OwnRows(ledger, id) == []
    decreases |ledger|
  {
    if ledger != [] {
      NoOwnRows(ledger[..|ledger| - 1], id);
    }
  }

  /**
   * After `createClient` the client's rows are a running-balance chain
   * starting from 0, so the browser's ledger table shows the opening balance,
   * the same figure `getCurrentBalance` reports.
   */
  lemma OpeningStartsChain(ledger: seq<ClientEntry>, id: nat, ob: real, now: int)
    requires forall i :: 0 <= i < |ledger| ==> ledger[i].owner != id
    ensures var after := ledger + OpeningRows(id, ob, now);
      && LedgerView.Chained(OwnRows(after, id))
      && LedgerView.RunningBalance(LedgerView.RowsOf(OwnRows(after, id))) == CurrentBalance(after, id) == ob
  {
    var rows := OpeningRows(id, ob, now);
    var after := ledger + rows;
    NoOwnRows(ledger, id);
    if rows != [] {
      assert after[..|after| - 1] == ledger;
      assert OwnRows(after, id) == rows;
      assert LedgerView.Linked(rows, 0);
      AppendLatest(ledger, rows[0]);
    } else {
      assert after == ledger;
      NoEntriesNoBalance(ledger, id);
    }
    LedgerView.BalanceMatchesChain(OwnRows(after, id));
  }

  /** A text field that holds a non-empty string: what a required String path accepts. */
  predicate Filled(t: Option<string>) {
    t.Some? && t.value != ""
  }

  /** The environments the credential schema's enum names. */
  const EnvironmentNames: seq<string> := ["PROD", "STAGING", "DEV", "OTHER"]

  /** A credential the schema accepts: panel, username and password given, and a known environment or none. */
  predicate CredentialOk(c: Credential) {
    Filled(c.panelName) && Filled(c.username) && Filled(c.password)
    && (c.environment.None? || c.environment.value in EnvironmentNames)
  }

  /**
   * A client document `Client.create` accepts: a non-empty name, every
   * credential accepted, every action item described.
   */
  predicate ClientDocOk(c: Client) {
    && c.name != ""
    && (forall k :: 0 <= k < |c.credentials| ==> CredentialOk(c.credentials[k]))
    && (forall j, k :: 0 <= j < |c.meetings| && 0 <= k < |c.meetings[j].actionItems| ==>
          c.meetings[j].actionItems[k].description != "")
  }

  /**
   * `createClient`: a document the schema refuses is a validation failure
   * and nothing is stored, not even the opening row. Otherwise the client is
   * stored, then the opening row (if any) is posted; afterwards the new
   * client's current balance is its opening balance.
   */
  method CreateClient(books: ClientBooks, c: Client, now: int) returns (r: Result<nat, ClientError>)
    requires books.Valid()
    modifies books
    ensures books.Valid()
    ensures !ClientDocOk(c) ==> r == Failure(ValidationFailed) && unchanged(books)
    ensures ClientDocOk(c) ==>
      && r == Success(|old(books.clients)|) && books.clients == old(books.clients) + [c]
      && books.ledger == old(books.ledger) + OpeningRows(r.value, c.openingBalance, now)
      && books.invoices == old(books.invoices) && books.payments == old(books.payments)
      && CurrentBalance(books.ledger, r.value) == c.openingBalance
  {
    if !ClientDocOk(c) {
      return Failure(ValidationFailed);
    }
    var id := books.AddClient(c);
    assert forall i :: 0 <= i < |books.ledger| ==> books.ledger[i].owner != id by {
      assert LedgerOk(books.ledger, |books.clients| - 1, |books.invoices|, |books.payments|);
    }
    var rows := OpeningRows(id, c.openingBalance, now);
    if rows != [] {
      AppendLatest(books.ledger, rows[0]);
      books.Post(rows[0]);
      assert books.ledger == old(books.ledger) + rows;
    } else {
      NoEntriesNoBalance(books.ledger, id);
    }
    r := Success(id);
  }

  /* ------------------------------ listClients ------------------------------ */

  /** The paging figures of the reply. */
  datatype Pagination = Pagination(page: int, limit: int, total: nat, pages: nat)

  /** One page of the client list: the ids on it, newest first, and the paging figures. */
  datatype ClientPage = ClientPage(list: seq<nat>, pagination: Pagination)

  /**
   * `Math.max(parseInt(page ?? '1', 10) || 1, 1)`; `raw` is what `parseInt`
   * gave, `None` when it gave NaN.
   */
  function PageNumber(raw: Option<int>): (page: int)
    ensures page >= 1
    ensures raw.Some? && raw.value >= 1 ==> page == raw.value
    ensures raw.None? || raw.value < 1 ==> page == 1
  {
    var p := if raw.None? || raw.value == 0 then 1 else raw.value;
    if p >= 1 then p else 1
  }

  /** `Math.min(Math.max(parseInt(limit ?? '25', 10) || 25, 1), 200)`. */
  function PageLimit(raw: Option<int>): (limit: int)
    ensures 1 <= limit <= 200
    ensures raw.None? || raw.value == 0 ==> limit == 25
    ensures raw.Some? && 1 <= raw.value <= 200 ==> limit == raw.value
    ensures raw.Some? && raw.value < 0 ==> limit == 1
    ensures raw.Some? && raw.value > 200 ==> limit == 200
  {
    var l := if raw.None? || raw.value == 0 then 25 else raw.value;
    if l < 1 then 1 else if l > 200 then 200 else l
  }

  /** `Math.ceil(total / limit)`: the fewest pages of `limit` rows that hold `total` rows. */
  function PageCount(total: nat, limit: int): (pages: nat)
    requires limit >= 1
    ensures total <= pages * limit
    ensures pages > 0 ==> (pages - 1) * limit < total
  {
    (total + limit - 1) / limit
  }

  /** The ids in reverse creation order: `sort({ createdAt: -1 })`. */
  function NewestFirst(ids: seq<nat>): (r: seq<nat>)
    ensures |r| == |ids|
    ensures forall k :: 0 <= k < |ids| ==> r[k] == ids[|ids| - 1 - k]
  {
    seq(|ids|, k requires 0 <= k < |ids| => ids[|ids| - 1 - k])
  }

  function MinInt(a: int, b: int): int { if a <= b then a else b }

  /** `(page - 1) * limit`: the rows before the page. */
  function Skip(page: int, limit: int): (skip: int)
    requires page >= 1 && limit >= 1
    ensures skip >= 0
  {
    MulMonotone(0, page - 1, limit);
    (page - 1) * limit
  }

  /**
   * `listClients`: `matching` holds the ids of the clients the search selects,
   * in creation order; the page is `skip((page - 1) * limit).limit(limit)` of
   * them, newest first.
   */
  function ListClients(matching: seq<nat>, pageRaw: Option<int>, limitRaw: Option<int>): (r: ClientPage)
    ensures r.pagination.page == PageNumber(pageRaw) && r.pagination.limit == PageLimit(limitRaw)
    ensures r.pagination.total == |matching| && r.pagination.pages == PageCount(|matching|, PageLimit(limitRaw))
    ensures |r.list| <= r.pagination.limit
    ensures |r.list| == MinInt(Skip(r.pagination.page, r.pagination.limit) + r.pagination.limit, |matching|)
                        - MinInt(Skip(r.pagination.page, r.pagination.limit), |matching|)
    ensures forall k :: 0 <= k < |r.list| ==>
      && Skip(r.pagination.page, r.pagination.limit) + k < |matching|
      && r.list[k] == matching[|matching| - 1 - (Skip(r.pagination.page, r.pagination.limit) + k)]
  {
    var page := PageNumber(pageRaw);
    var limit := PageLimit(limitRaw);
    var skip := Skip(page, limit);
    var all := NewestFirst(matching);
    var from := MinInt(skip, |all|);
    var to := MinInt(skip + limit, |all|);
    ClientPage(all[from..to], Pagination(page, limit, |matching|, PageCount(|matching|, limit)))
  }

  /**
   * Every selected client is on exactly the page its position says: the
   * client at position `pos` (newest first) is row `pos % limit` of page
   * `pos / limit + 1`, and that page is within the page count.
   */
  lemma EveryClientOnItsPage(matching: seq<nat>, limitRaw: Option<int>, pos: nat)
    requires pos < |matching|
    ensures var limit := PageLimit(limitRaw);
      var page := pos / limit + 1;
      var r := ListClients(matching, Some(page), limitRaw);
      && page <= r.pagination.pages
      && pos % limit < |r.list|
      && r.list[pos % limit] == matching[|matching| - 1 - pos]
  {
    var limit := PageLimit(limitRaw);
    var q, k := pos / limit, pos % limit;
    PositionOnPage(pos, limit, |matching|);
    RowOnPage(matching, limitRaw, q + 1, k);
    assert Skip(q + 1, limit) + k == pos;
  }

  /** Row `k` of a page is the client `k` places past the page's start, newest first, when there is one. */
  lemma RowOnPage(matching: seq<nat>, limitRaw: Option<int>, page: int, k: nat)
    requires page >= 1 && k < PageLimit(limitRaw) && Skip(page, PageLimit(limitRaw)) + k < |matching|
    ensures var r := ListClients(matching, Some(page), limitRaw);
      k < |r.list| && r.list[k] == matching[|matching| - 1 - (Skip(page, PageLimit(limitRaw)) + k)]
  {
    var skip := Skip(page, PageLimit(limitRaw));
    assert MinInt(skip, |matching|) == skip;
  }

  /** Division facts behind the page of a position: its page starts at or before it, and is within the page count. */
  lemma PositionOnPage(pos: nat, limit: int, total: nat)
    requires limit >= 1 && pos < total
    ensures Skip(pos / limit + 1, limit) + pos % limit == pos
    ensures 0 <= pos % limit < limit
    ensures pos / limit + 1 <= PageCount(total, limit)
  {
    var q := pos / limit;
    assert q * limit + pos % limit == pos;
    var pages := PageCount(total, limit);
    if q + 1 > pages {
      MulMonotone(pages, q, limit);
      assert false;
    }
  }

  lemma MulMonotone(a: int, b: int, k: int)
    requires a <= b && k >= 0
    ensures a * k <= b * k
  {
    assert b * k - a * k == (b - a) * k;
  }

  /* --------------------------- listClientMeetings -------------------------- */

  /** The `from`/`to` filters: a bound that is absent or not a date (`None`) filters nothing. */
  predicate InRange(m: Meeting, from: Option<int>, to: Option<int>) {
    (from.None? || m.meetingDate >= from.value) && (to.None? || m.meetingDate <= to.value)
  }

  /** `meetings.filter(...)` by the date bounds, in stored order. */
  function MeetingsInRange(ms: seq<Meeting>, from: Option<int>, to: Option<int>): (r: seq<Meeting>)
    ensures |r| <= |ms|
    decreases |ms|
  {
    if ms == [] then []
    else (if InRange(ms[0], from, to) then [ms[0]] else []) + MeetingsInRange(ms[1..], from, to)
  }

  /** A meeting is listed exactly when it is stored and within the bounds, as often as it is stored. */
  lemma {:induction false} MeetingsInRangeSpec(ms: seq<Meeting>, from: Option<int>, to: Option<int>, m: Meeting)
    ensures multiset(MeetingsInRange(ms, from, to))[m] == if InRange(m, from, to) then multiset(ms)[m] else 0
    decreases |ms|
  {
    if ms != [] {
      var head, rest := ms[0], ms[1..];
      MeetingsInRangeSpec(rest, from, to, m);
      assert ms == [head] + rest;
      assert multiset(ms) == multiset{head} + multiset(rest);
      var kept := if InRange(head, from, to) then [head] else [];
      assert MeetingsInRange(ms, from, to) == kept + MeetingsInRange(rest, from, to);
      assert multiset(MeetingsInRange(ms, from, to)) == multiset(kept) + multiset(MeetingsInRange(rest, from, to));
    }
  }

  /** Latest first: `sort((a, b) => b.meetingDate - a.meetingDate)`. */
  predicate LatestFirst(s: seq<Meeting>) {
    forall p, q :: 0 <= p < q < |s| ==> s[p].meetingDate >= s[q].meetingDate
  }

  /** The in-place sort of the filtered meetings, latest first (an insertion sort). */
  method SortLatestFirst(a: array<Meeting>)
    modifies a
    ensures LatestFirst(a[..])
    ensures multiset(a[..]) == multiset(old(a[..]))
  {
    var i := 0;
    while i < a.Length
      invariant 0 <= i <= a.Length
      invariant forall p, q :: 0 <= p < q < i ==> a[p].meetingDate >= a[q].meetingDate
      invariant multiset(a[..]) == multiset(old(a[..]))
    {
      InsertLatestFirst(a, i);
      i := i + 1;
    }
  }

  /** Moves `a[i]` left past every earlier meeting dated before it, so `a[..i + 1]` is latest first. */
  method InsertLatestFirst(a: array<Meeting>, i: nat)
    requires i < a.Length
    requires forall p, q :: 0 <= p < q < i ==> a[p].meetingDate >= a[q].meetingDate
    modifies a
    ensures forall p, q :: 0 <= p < q <= i ==> a[p].meetingDate >= a[q].meetingDate
    ensures multiset(a[..]) == multiset(old(a[..]))
  {
    var j := i;
    while j > 0 && a[j - 1].meetingDate < a[j].meetingDate
      invariant 0 <= j <= i
      invariant forall p, q :: 0 <= p < q <= i && p != j && q != j ==> a[p].meetingDate >= a[q].meetingDate
      invariant forall q :: j < q <= i ==> a[j].meetingDate >= a[q].meetingDate
      invariant multiset(a[..]) == multiset(old(a[..]))
    {
      SwapWithPrevious(a, j);
      j := j - 1;
    }
  }

  /** Exchanges `a[j - 1]` and `a[j]`. */
  method SwapWithPrevious(a: array<Meeting>, j: nat)
    requires 0 < j < a.Length
    modifies a
    ensures a[j - 1] == old(a[j]) && a[j] == old(a[j - 1])
    ensures forall k :: 0 <= k < a.Length && k != j - 1 && k != j ==> a[k] == old(a[k])
    ensures multiset(a[..]) == multiset(old(a[..]))
  {
    a[j - 1], a[j] := a[j], a[j - 1];
  }

  /**
   * `listClientMeetings`: an unknown client is CLIENT_NOT_FOUND; otherwise the
   * client's meetings within the bounds, latest first. (The text search `q` is
   * not part of this model.)
   */
  method ListClientMeetings(books: ClientBooks, clientId: nat, from: Option<int>, to: Option<int>)
      returns (r: Result<seq<Meeting>, ClientError>)
    ensures clientId >= |books.clients| ==> r == Failure(ClientNotFound)
    ensures clientId < |books.clients| ==>
      && r.Success? && LatestFirst(r.value)
      && multiset(r.value) == multiset(MeetingsInRange(books.clients[clientId].meetings, from, to))
  {
    if clientId >= |books.clients| {
      return Failure(ClientNotFound);
    }
    var meetings := books.clients[clientId].meetings;
    if from.Some? {
      meetings := MeetingsInRange(meetings, from, None);
    }
    if to.Some? {
      meetings := MeetingsInRange(meetings, None, to);
    }
    FiltersCompose(books.clients[clientId].meetings, from, to);
    var sorted := SortedCopy(meetings);
    r := Success(sorted);
  }

  /** `meetings.sort(...)` on the array holding the filtered meetings. */
  method SortedCopy(s: seq<Meeting>) returns (r: seq<Meeting>)
    ensures LatestFirst(r) && multiset(r) == multiset(s)
  {
    var a := new Meeting[|s|](k requires 0 <= k < |s| => s[k]);
    assert a[..] == s;
    SortLatestFirst(a);
    r := a[..];
  }

  /** Filtering by `from` and then by `to` is filtering by both. */
  lemma FiltersCompose(ms: seq<Meeting>, from: Option<int>, to: Option<int>)
    ensures var once := if from.Some? then MeetingsInRange(ms, from, None) else ms;
      multiset(if to.Some? then MeetingsInRange(once, None, to) else once) == multiset(MeetingsInRange(ms, from, to))
  {
    var once := if from.Some? then MeetingsInRange(ms, from, None) else ms;
    var twice := if to.Some? then MeetingsInRange(once, None, to) else once;
    forall m ensures multiset(twice)[m] == multiset(MeetingsInRange(ms, from, to))[m] {
      MeetingsInRangeSpec(ms, from, to, m);
      MeetingsInRangeSpec(ms, from, None, m);
      MeetingsInRangeSpec(once, None, to, m);
    }
    assert multiset(twice) == multiset(MeetingsInRange(ms, from, to));
  }

  /* ----------------------------- maskCredential ---------------------------- */

  /** The eight bullets that stand in for a password. */
  const Mask: string := "\U{2022}\U{2022}\U{2022}\U{2022}\U{2022}\U{2022}\U{2022}\U{2022}"

  /** `maskCredential`: a non-empty password becomes the mask; every other field is kept. */
  function MaskCredential(c: Credential): (r: Credential)
    ensures r.(password := c.password) == c
    ensures Filled(c.password) ==> r.password == Some(Mask)
    ensures !Filled(c.password) ==> r == c
  {
    if Filled(c.password) then c.(password := Some(Mask)) else c
  }

  /** Masking twice is masking once. */
  lemma MaskIdempotent(c: Credential)
    ensures MaskCredential(MaskCredential(c)) == MaskCredential(c)
  {
  }

  /** A masked credential does not depend on which non-empty password it had. */
  lemma MaskHidesPassword(c: Credential, p1: string, p2: string)
    requires p1 != "" && p2 != ""
    ensures MaskCredential(c.(password := Some(p1))) == MaskCredential(c.(password := Some(p2)))
  {
  }

  /** `maskCredentialsList`. */
  function MaskCredentials(creds: seq<Credential>): (r: seq<Credential>)
    ensures |r| == |creds| && forall k :: 0 <= k < |creds| ==> r[k] == MaskCredential(creds[k])
  {
    seq(|creds|, k requires 0 <= k < |creds| => MaskCredential(creds[k]))
  }

  /** The client as the credential routes reply with it: every credential masked. */
  function SafeClient(c: Client): (r: Client)
    ensures forall k :: 0 <= k < |r.credentials| ==> !Filled(r.credentials[k].password) || r.credentials[k].password == Some(Mask)
    ensures r.(credentials := c.credentials) == c
  {
    c.(credentials := MaskCredentials(c.credentials))
  }

  /* ------------------------- updateClientCredential ------------------------ */

  /** A value of a JSON request body as these routes read it: a string, a list of strings, or null. */
  datatype BodyValue = TextValue(s: string) | ListValue(items: seq<string>) | NullValue

  /** A value of the credential update: one taken from the body, or the `new Date()` rotation stamp. */
  datatype PatchValue = FromBody(v: BodyValue) | Stamp(t: int)

  /** JavaScript truthiness: an empty string and null are falsy; a list (even an empty one) and a date are not. */
  predicate Truthy(v: PatchValue) {
    match v
    case FromBody(TextValue(s)) => s != ""
    case FromBody(ListValue(_)) => true
    case FromBody(NullValue) => false
    case Stamp(_) => true
  }

  /** The keys `updateClientCredential` copies from the body. */
  const CredentialKeys: seq<string> :=
    ["panelName", "projectName", "environment", "url", "username", "password", "tags", "notes", "lastRotatedAt"]

  /** The body restricted to the keys in `keys`. */
  function Copied(body: map<string, BodyValue>, keys: seq<string>): map<string, PatchValue> {
    map k | k in body && k in keys :: FromBody(body[k])
  }

  /** A password is set without a (truthy) rotation date, so the rotation date becomes now. */
  predicate StampsRotation(up: map<string, PatchValue>) {
    "password" in up && Truthy(up["password"]) && !("lastRotatedAt" in up && Truthy(up["lastRotatedAt"]))
  }

  /** The update `updateClientCredential` sends, keyed by field name (the `credentials.$.` prefix dropped). */
  function CredentialPatch(body: map<string, BodyValue>, now: int): map<string, PatchValue> {
    var up := Copied(body, CredentialKeys);
    if StampsRotation(up) then up["lastRotatedAt" := Stamp(now)] else up
  }

  /** The loop over the key whitelist, then the rotation rule. */
  method BuildCredentialPatch(body: map<string, BodyValue>, now: int) returns (up: map<string, PatchValue>)
    ensures up == CredentialPatch(body, now)
  {
    up := map[];
    var i := 0;
    while i < |CredentialKeys|
      invariant 0 <= i <= |CredentialKeys|
      invariant up == Copied(body, CredentialKeys[..i])
    {
      var k := CredentialKeys[i];
      if k in body {
        up := up[k := FromBody(body[k])];
      }
      assert CredentialKeys[..i + 1] == CredentialKeys[..i] + [k];
      i := i + 1;
    }
    assert CredentialKeys[..i] == CredentialKeys;
    if "password" in up && Truthy(up["password"]) && !("lastRotatedAt" in up && Truthy(up["lastRotatedAt"])) {
      up := up["lastRotatedAt" := Stamp(now)];
    }
  }

  /**
   * Only whitelisted keys reach the update; each carries the body's value
   * unless the rotation rule stamped it, and only the rotation date is ever stamped.
   */
  lemma PatchIsWhitelisted(body: map<string, BodyValue>, now: int, k: string)
    ensures k in CredentialPatch(body, now) ==> k in CredentialKeys
    ensures k in CredentialKeys && k in body ==> k in CredentialPatch(body, now)
    ensures k in CredentialPatch(body, now) && k != "lastRotatedAt" ==> CredentialPatch(body, now)[k] == FromBody(body[k])
  {
  }

  /** A key outside the whitelist changes nothing. */
  lemma IgnoresOtherKeys(body: map<string, BodyValue>, now: int, k: string, v: BodyValue)
    requires k !in CredentialKeys
    ensures CredentialPatch(body[k := v], now) == CredentialPatch(body, now)
  {
    assert Copied(body[k := v], CredentialKeys) == Copied(body, CredentialKeys);
  }

  /** Setting a password without a rotation date dates the rotation now; a given rotation date is kept. */
  lemma PasswordRotation(body: map<string, BodyValue>, now: int)
    requires "password" in body && Truthy(FromBody(body["password"]))
    ensures "lastRotatedAt" in body && Truthy(FromBody(body["lastRotatedAt"])) ==>
      CredentialPatch(body, now)["lastRotatedAt"] == FromBody(body["lastRotatedAt"])
    ensures !("lastRotatedAt" in body && Truthy(FromBody(body["lastRotatedAt"]))) ==>
      CredentialPatch(body, now)["lastRotatedAt"] == Stamp(now)
  {
    var up := Copied(body, CredentialKeys);
    assert "password" in up && "lastRotatedAt" in CredentialKeys;
  }

  /**
   * Mongoose's cast of a String path: a string is kept and null stores null
   * (`Some(None)`); a list is a CastError (`None`). A date would be cast to its
   * text, but the rotation stamp is only ever set under `lastRotatedAt`.
   */
  function CastText(v: PatchValue): Option<Option<string>> {
    match v
    case FromBody(TextValue(s)) => Some(Some(s))
    case FromBody(NullValue) => Some(None)
    case FromBody(ListValue(_)) => None
    case Stamp(_) => None
  }

  /** The cast of the `tags` array path: a list is kept, a lone string is wrapped, null stores null. */
  function CastTags(v: PatchValue): Option<Option<seq<string>>> {
    match v
    case FromBody(ListValue(items)) => Some(Some(items))
    case FromBody(TextValue(s)) => Some(Some([s]))
    case FromBody(NullValue) => Some(None)
    case Stamp(_) => None
  }

  /** `String(list)`: the items joined by commas. */
  function ListText(items: seq<string>): string {
    if items == [] then "" else Join(items, ',')
  }

  /**
   * Mongoose's cast of a Date path: null and the empty string store null; a
   * string, or a list through its text, becomes `toDate` of it, and one that
   * is no date is a CastError (`None`). `toDate` is the host's `new Date(s)`.
   */
  function CastDate(v: PatchValue, toDate: string -> Option<int>): Option<Option<int>> {
    match v
    case Stamp(t) => Some(Some(t))
    case FromBody(NullValue) => Some(None)
    case FromBody(TextValue(s)) =>
      if s == "" then Some(None) else if toDate(s).Some? then Some(toDate(s)) else None
    case FromBody(ListValue(items)) =>
      if toDate(ListText(items)).Some? then Some(toDate(ListText(items))) else None
  }

  /** The credential fields the schema declares as strings. */
  const TextKeys: seq<string> := ["panelName", "projectName", "environment", "url", "username", "password", "notes"]

  /** A string field of a credential, by its key. */
  function TextField(c: Credential, k: string): Option<string> {
    match k
    case "panelName" => c.panelName
    case "projectName" => c.projectName
    case "environment" => c.environment
    case "url" => c.url
    case "username" => c.username
    case "password" => c.password
    case "notes" => c.notes
    case _ => None
  }

  /** Every value of the update casts to its path's type; otherwise the query throws before it runs. */
  predicate CastsCleanly(up: map<string, PatchValue>, toDate: string -> Option<int>) {
    && (forall k :: k in up && k in TextKeys ==> CastText(up[k]).Some?)
    && ("tags" in up ==> CastTags(up["tags"]).Some?)
    && ("lastRotatedAt" in up ==> CastDate(up["lastRotatedAt"], toDate).Some?)
  }

  /** The value a string field takes: the cast value when the key is in the update, its old value otherwise. */
  function TextAfter(current: Option<string>, up: map<string, PatchValue>, k: string): Option<string>
    requires k in up ==> CastText(up[k]).Some?
  {
    if k in up then CastText(up[k]).value else current
  }

  /**
   * `$set` of the update on one credential, with no validator run: `None`
   * when a value does not cast. Otherwise each key of the update sets its field
   * to its cast value (null included, even in a required field) and every
   * other field keeps its value.
   */
  function PatchedCredential(c: Credential, up: map<string, PatchValue>, toDate: string -> Option<int>): (r: Option<Credential>)
    ensures r.None? <==> !CastsCleanly(up, toDate)
    ensures r.Some? ==> r.value.id == c.id
    ensures r.Some? ==> forall k :: k in TextKeys ==>
      TextField(r.value, k) == if k in up then CastText(up[k]).value else TextField(c, k)
    ensures r.Some? ==> r.value.tags == if "tags" in up then CastTags(up["tags"]).value else c.tags
    ensures r.Some? ==> r.value.lastRotatedAt == if "lastRotatedAt" in up then CastDate(up["lastRotatedAt"], toDate).value else c.lastRotatedAt
    ensures up == map[] ==> r == Some(c)
  {
    if !CastsCleanly(up, toDate) then None
    else
      var d := c.(
        panelName := TextAfter(c.panelName, up, "panelName"),
        projectName := TextAfter(c.projectName, up, "projectName"),
        environment := TextAfter(c.environment, up, "environment"),
        url := TextAfter(c.url, up, "url"),
        username := TextAfter(c.username, up, "username"),
        password := TextAfter(c.password, up, "password"),
        tags := if "tags" in up then CastTags(up["tags"]).value else c.tags,
        notes := TextAfter(c.notes, up, "notes"),
        lastRotatedAt := if "lastRotatedAt" in up then CastDate(up["lastRotatedAt"], toDate).value else c.lastRotatedAt);
      TextFieldsSet(c, d, up);
      Some(d)
  }

  /** Field by field, a credential whose string fields were set by `TextAfter` has them set by key. */
  lemma TextFieldsSet(c: Credential, d: Credential, up: map<string, PatchValue>)
    requires forall k :: k in up && k in TextKeys ==> CastText(up[k]).Some?
    requires d.panelName == TextAfter(c.panelName, up, "panelName") && d.projectName == TextAfter(c.projectName, up, "projectName")
    requires d.environment == TextAfter(c.environment, up, "environment") && d.url == TextAfter(c.url, up, "url")
    requires d.username == TextAfter(c.username, up, "username") && d.password == TextAfter(c.password, up, "password")
    requires d.notes == TextAfter(c.notes, up, "notes")
    ensures forall k :: k in TextKeys ==> TextField(d, k) == if k in up then CastText(up[k]).value else TextField(c, k)
  {
    forall k | k in TextKeys
      ensures TextField(d, k) == if k in up then CastText(up[k]).value else TextField(c, k)
    {
      assert k == TextKeys[0] || k == TextKeys[1] || k == TextKeys[2] || k == TextKeys[3]
          || k == TextKeys[4] || k == TextKeys[5] || k == TextKeys[6];
    }
  }

  /** A new password is stored, and without a rotation date of its own the rotation is dated now. */
  lemma NewPasswordIsDated(c: Credential, body: map<string, BodyValue>, now: int, toDate: string -> Option<int>, p: string)
    requires "password" in body && body["password"] == TextValue(p) && p != ""
    requires PatchedCredential(c, CredentialPatch(body, now), toDate).Some?
    ensures PatchedCredential(c, CredentialPatch(body, now), toDate).value.password == Some(p)
    ensures !("lastRotatedAt" in body && Truthy(FromBody(body["lastRotatedAt"]))) ==>
      PatchedCredential(c, CredentialPatch(body, now), toDate).value.lastRotatedAt == Some(now)
  {
    PasswordRotation(body, now);
    PatchIsWhitelisted(body, now, "password");
    assert TextField(PatchedCredential(c, CredentialPatch(body, now), toDate).value, "password")
      == CastText(FromBody(TextValue(p))).value;
  }

  /**
   * No validator runs on the update, so a null sent for the required
   * `panelName` is stored as null and nothing else changes.
   */
  lemma NullClearsRequiredField(c: Credential, now: int, toDate: string -> Option<int>)
    ensures PatchedCredential(c, CredentialPatch(map["panelName" := NullValue], now), toDate) == Some(c.(panelName := None))
  {
    var up := CredentialPatch(map["panelName" := NullValue], now);
    assert Copied(map["panelName" := NullValue], CredentialKeys) == map["panelName" := FromBody(NullValue)];
    assert up == map["panelName" := FromBody(NullValue)];
  }

  /** A list sent for a string field does not cast, so the whole update is refused, whatever else it carries. */
  lemma ListInTextFieldRefused(c: Credential, body: map<string, BodyValue>, now: int, toDate: string -> Option<int>, k: string)
    requires k in TextKeys && k in body && body[k].ListValue?
    ensures PatchedCredential(c, CredentialPatch(body, now), toDate).None?
  {
    PatchIsWhitelisted(body, now, k);
    var up := CredentialPatch(body, now);
    assert k in up && k in TextKeys && CastText(up[k]).None?;
  }

  /** The position of the credential with the given id, if the client has one. */
  function CredentialIndex(creds: seq<Credential>, credId: nat): (r: Option<nat>)
    ensures r.None? <==> forall k :: 0 <= k < |creds| ==> creds[k].id != credId
    ensures r.Some? ==> r.value < |creds| && creds[r.value].id == credId
    ensures r.Some? ==> forall k :: 0 <= k < r.value ==> creds[k].id != credId
    decreases |creds|
  {
    if creds == [] then None
    else if creds[0].id == credId then Some(0)
    else
      var rest := CredentialIndex(creds[1..], credId);
      if rest.None? then None else Some(rest.value + 1)
  }

  /**
   * `updateClientCredential`. The update is cast before the query runs, so a
   * value that does not cast is a 400 that changes nothing, even for an
   * unknown client. Then a missing client or credential is
   * CLIENT_OR_CREDENTIAL_NOT_FOUND and changes nothing; otherwise the patch
   * is set on that one credential and the client is returned masked.
   */
  method UpdateClientCredential(books: ClientBooks, clientId: nat, credId: nat, body: map<string, BodyValue>,
                                now: int, toDate: string -> Option<int>)
      returns (r: Result<Client, ClientError>)
    requires books.Valid()
    modifies books
    ensures books.Valid()
    ensures !CastsCleanly(CredentialPatch(body, now), toDate) ==> r == Failure(CastFailed) && unchanged(books)
    ensures CastsCleanly(CredentialPatch(body, now), toDate)
              && (clientId >= |old(books.clients)| || CredentialIndex(old(books.clients)[clientId].credentials, credId).None?) ==>
      r == Failure(ClientOrCredentialNotFound) && unchanged(books)
    ensures CastsCleanly(CredentialPatch(body, now), toDate)
              && clientId < |old(books.clients)| && CredentialIndex(old(books.clients)[clientId].credentials, credId).Some? ==>
      var c := old(books.clients)[clientId];
      var k := CredentialIndex(c.credentials, credId).value;
      var updated := c.(credentials := c.credentials[k := PatchedCredential(c.credentials[k], CredentialPatch(body, now), toDate).value]);
      && books.clients == old(books.clients)[clientId := updated]
      && r == Success(SafeClient(updated))
    ensures books.invoices == old(books.invoices) && books.payments == old(books.payments) && books.ledger == old(books.ledger)
  {
    var up := BuildCredentialPatch(body, now);
    if !CastsCleanly(up, toDate) {
      return Failure(CastFailed);
    }
    if clientId >= |books.clients| {
      return Failure(ClientOrCredentialNotFound);
    }
    var c := books.clients[clientId];
    var k := CredentialIndex(c.credentials, credId);
    if k.None? {
      return Failure(ClientOrCredentialNotFound);
    }
    var updated := c.(credentials := c.credentials[k.value := PatchedCredential(c.credentials[k.value], up, toDate).value]);
    books.SaveClient(clientId, updated);
    r := Success(SafeClient(updated));
  }

  /* ------------------------ updateMeetingActionItem ------------------------ */

  /** The status an enum string names, if any. */
  function StatusNamed(s: string): Option<ActionStatus> {
    match s
    case "OPEN" => Some(Open)
    case "IN_PROGRESS" => Some(InProgress)
    case "DONE" => Some(Done)
    case "BLOCKED" => Some(Blocked)
    case _ => None
  }

  /** The cast and enum check of `status`: a name of the enum, or null; anything else fails the save. */
  function CastStatus(v: BodyValue): Option<Option<ActionStatus>> {
    match v
    case TextValue(s) => if StatusNamed(s).Some? then Some(StatusNamed(s)) else None
    case NullValue => Some(None)
    case ListValue(_) => None
  }

  /** Every present key of the body casts to its path's type (and `status` names the enum or is null). */
  predicate ItemCastsCleanly(body: map<string, BodyValue>, toDate: string -> Option<int>) {
    && ("description" in body ==> CastText(FromBody(body["description"])).Some?)
    && ("owner" in body ==> CastText(FromBody(body["owner"])).Some?)
    && ("dueDate" in body ==> CastDate(FromBody(body["dueDate"]), toDate).Some?)
    && ("status" in body ==> CastStatus(body["status"]).Some?)
  }

  /** The description the item ends with, when it casts: null (`None`) where null was sent. */
  function DescriptionAfter(ai: ActionItem, body: map<string, BodyValue>): Option<string>
    requires "description" in body ==> CastText(FromBody(body["description"])).Some?
  {
    if "description" in body then CastText(FromBody(body["description"])).value else Some(ai.description)
  }

  /** What `client.save()` accepts of the patched item: every key cast, and a described item. */
  predicate ItemAccepted(ai: ActionItem, body: map<string, BodyValue>, toDate: string -> Option<int>) {
    ItemCastsCleanly(body, toDate) && Filled(DescriptionAfter(ai, body))
  }

  /**
   * The loop over `description`, `owner`, `dueDate`, `status` and then the
   * save's validation: `None` when a value does not cast, a status names no
   * member of the enum, or the description ends empty or null. Otherwise a
   * present key sets its field to the cast value and the others are kept.
   */
  function PatchedActionItem(ai: ActionItem, body: map<string, BodyValue>, toDate: string -> Option<int>): (r: Option<ActionItem>)
    ensures r.Some? <==> ItemAccepted(ai, body, toDate)
    ensures "description" in body && !(body["description"].TextValue? && body["description"].s != "") ==> r.None?
    ensures "status" in body && body["status"].TextValue? && StatusNamed(body["status"].s).None? ==> r.None?
    ensures r.Some? ==> r.value.description == if "description" in body then body["description"].s else ai.description
    ensures r.Some? ==> r.value.owner == if "owner" in body then CastText(FromBody(body["owner"])).value else ai.owner
    ensures r.Some? ==> r.value.dueDate == if "dueDate" in body then CastDate(FromBody(body["dueDate"]), toDate).value else ai.dueDate
    ensures r.Some? ==> r.value.status == if "status" in body then CastStatus(body["status"]).value else ai.status
  {
    if !ItemAccepted(ai, body, toDate) then None
    else
      Some(ActionItem(
        DescriptionAfter(ai, body).value,
        if "owner" in body then CastText(FromBody(body["owner"])).value else ai.owner,
        if "dueDate" in body then CastDate(FromBody(body["dueDate"]), toDate).value else ai.dueDate,
        if "status" in body then CastStatus(body["status"]).value else ai.status))
  }

  /** Applying the same patch again changes nothing more. */
  lemma ActionPatchIdempotent(ai: ActionItem, body: map<string, BodyValue>, toDate: string -> Option<int>)
    requires PatchedActionItem(ai, body, toDate).Some?
    ensures PatchedActionItem(PatchedActionItem(ai, body, toDate).value, body, toDate) == PatchedActionItem(ai, body, toDate)
  {
  }

  /** A body with none of the four keys leaves a described item as it was, and refuses an undescribed one. */
  lemma EmptyActionPatch(ai: ActionItem, toDate: string -> Option<int>)
    ensures PatchedActionItem(ai, map[], toDate) == if ai.description != "" then Some(ai) else None
  {
  }

  /** The position of the meeting with the given id (`client.meetings.id(meetingId)`). */
  function MeetingIndex(ms: seq<Meeting>, meetingId: nat): (r: Option<nat>)
    ensures r.None? <==> forall k :: 0 <= k < |ms| ==> ms[k].id != meetingId
    ensures r.Some? ==> r.value < |ms| && ms[r.value].id == meetingId
    decreases |ms|
  {
    if ms == [] then None
    else if ms[0].id == meetingId then Some(0)
    else
      var rest := MeetingIndex(ms[1..], meetingId);
      if rest.None? then None else Some(rest.value + 1)
  }

  /**
   * `updateMeetingActionItem`. `index` is what `parseInt` gave (`None` for
   * NaN). The errors come in order: INVALID_ACTION_INDEX, then
   * CLIENT_OR_MEETING_NOT_FOUND, then ACTION_ITEM_NOT_FOUND for an index with
   * no item, then the save's refusal of a patch that does not cast or leaves
   * the item undescribed; each changes nothing. Otherwise the one item is
   * patched and the meeting returned.
   */
  method UpdateMeetingActionItem(books: ClientBooks, clientId: nat, meetingId: nat, index: Option<int>,
                                 patch: map<string, BodyValue>, toDate: string -> Option<int>)
      returns (r: Result<Meeting, ClientError>)
    requires books.Valid()
    modifies books
    ensures books.Valid()
    ensures index.None? ==> r == Failure(InvalidActionIndex) && unchanged(books)
    ensures index.Some? && (clientId >= |old(books.clients)| || MeetingIndex(old(books.clients)[clientId].meetings, meetingId).None?) ==>
      r == Failure(ClientOrMeetingNotFound) && unchanged(books)
    ensures index.Some? && clientId < |old(books.clients)| && MeetingIndex(old(books.clients)[clientId].meetings, meetingId).Some? ==>
      var c := old(books.clients)[clientId];
      var j := MeetingIndex(c.meetings, meetingId).value;
      var items := c.meetings[j].actionItems;
      if !(0 <= index.value < |items|) then
        r == Failure(ActionItemNotFound) && unchanged(books)
      else if PatchedActionItem(items[index.value], patch, toDate).None? then
        r == Failure(ValidationFailed) && unchanged(books)
      else
        var m := c.meetings[j].(actionItems := items[index.value := PatchedActionItem(items[index.value], patch, toDate).value]);
        && books.clients == old(books.clients)[clientId := c.(meetings := c.meetings[j := m])]
        && r == Success(m)
    ensures books.invoices == old(books.invoices) && books.payments == old(books.payments) && books.ledger == old(books.ledger)
  {
    if index.None? {
      return Failure(InvalidActionIndex);
    }
    var idx := index.value;
    if clientId >= |books.clients| {
      return Failure(ClientOrMeetingNotFound);
    }
    var c := books.clients[clientId];
    var j := MeetingIndex(c.meetings, meetingId);
    if j.None? {
      return Failure(ClientOrMeetingNotFound);
    }
    var items := c.meetings[j.value].actionItems;
    if idx < 0 || idx >= |items| {
      return Failure(ActionItemNotFound);
    }
    var patched := PatchedActionItem(items[idx], patch, toDate);
    if patched.None? {
      return Failure(ValidationFailed);
    }
    var m := c.meetings[j.value].(actionItems := items[idx := patched.value]);
    books.SaveClient(clientId, c.(meetings := c.meetings[j.value := m]));
    r := Success(m);
  }

  /* ---------------------------- addClientService --------------------------- */

  /**
   * The body of `addClientService`; a field is `None` when it is absent or
   * falsy (an empty string, 0, null).
   */
  datatype ServiceBody = ServiceBody(
    kind: Option<ServiceKind>,
    amountMonthly: Option<real>,
    amountOneTime: Option<real>,
    billingType: Option<BillingType>,
    startDate: Option<int>,
    expiryDate: Option<int>,
    notes: Option<string>)

  /**
   * The service pushed: refused without kind, billing type or start date;
   * amounts are `Number(x || 0)`; an expiry date and notes are kept only when
   * truthy.
   */
  function ServiceOf(body: ServiceBody): (r: Result<Service, ClientError>)
    ensures r.Failure? <==> body.kind.None? || body.billingType.None? || body.startDate.None?
    ensures r.Failure? ==> r.error == KindBillingTypeStartDateRequired
    ensures r.Success? ==>
      && r.value.kind == body.kind.value && r.value.billingType == body.billingType.value
      && r.value.startDate == body.startDate.value && r.value.expiryDate == body.expiryDate
      && r.value.amountMonthly == body.amountMonthly.GetOr(0.0) && r.value.amountOneTime == body.amountOneTime.GetOr(0.0)
      && (r.value.notes.Some? <==> body.notes.Some? && body.notes.value != "")
      && (r.value.notes.Some? ==> r.value.notes == body.notes)
  {
    if body.kind.None? || body.billingType.None? || body.startDate.None? then Failure(KindBillingTypeStartDateRequired)
    else
      Success(Service(body.kind.value, body.amountMonthly.GetOr(0.0), body.amountOneTime.GetOr(0.0), body.billingType.value,
        body.startDate.value, body.expiryDate, if body.notes.Some? && body.notes.value != "" then body.notes else None))
  }

  /**
   * `addClientService`: the required fields are checked before the client is
   * looked up; an unknown client is CLIENT_NOT_FOUND. On success the service
   * is appended to the client's services and nothing else changes.
   */
  method AddClientService(books: ClientBooks, clientId: nat, body: ServiceBody) returns (r: Result<Client, ClientError>)
    requires books.Valid()
    modifies books
    ensures books.Valid()
    ensures ServiceOf(body).Failure? ==> r == Failure(KindBillingTypeStartDateRequired) && unchanged(books)
    ensures ServiceOf(body).Success? && clientId >= |old(books.clients)| ==> r == Failure(ClientNotFound) && unchanged(books)
    ensures ServiceOf(body).Success? && clientId < |old(books.clients)| ==>
      var c := old(books.clients)[clientId];
      var updated := c.(services := c.services + [ServiceOf(body).value]);
      && books.clients == old(books.clients)[clientId := updated]
      && r == Success(updated)
    ensures books.invoices == old(books.invoices) && books.payments == old(books.payments) && books.ledger == old(books.ledger)
  {
    var s := ServiceOf(body);
    if s.Failure? {
      return Failure(KindBillingTypeStartDateRequired);
    }
    if clientId >= |books.clients| {
      return Failure(ClientNotFound);
    }
    var c := books.clients[clientId];
    var updated := c.(services := c.services + [s.value]);
    books.SaveClient(clientId, updated);
    r := Success(updated);
  }
}
