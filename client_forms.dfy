/**
 * The client pages of the browser client: the validators and payload
 * builders of client/src/pages/ClientDetailPage.jsx (the month picker of
 * "invoice from services", the service form, the credential and meeting
 * forms) and the meeting builder of client/src/components/Clients.js (its
 * list of action items). A text field is a string, "" when empty; a number
 * field is `None` when empty.
 */
module ClientForms {
  import opened Wrappers
  import opened Money
  import opened Text
  import opened Pricing
  import opened Books
  import opened ClientController
  import opened Lists

  /* --------------------------- month and year ----------------------------- */

  /** `Number.isInteger`: a finite number without a fractional part. */
  predicate IsInteger(n: JsNumber) {
    n.Finite? && n.value.Floor as real == n.value
  }

  /** `monthYearValid`: an integral month 1..12 and an integral year 2000..2100. */
  predicate MonthYearValid(month: JsNumber, year: JsNumber) {
    IsInteger(month) && 1.0 <= month.value <= 12.0 && IsInteger(year) && 2000.0 <= year.value <= 2100.0
  }

  datatype MonthInvoiceRequest = MonthInvoiceRequest(clientId: nat, month: nat, year: nat, gstMode: GstMode)

  /** The body of "invoice from services", or nothing when the picker does not hold a valid month and year (the request is then not sent). */
  function MonthInvoiceBody(clientId: nat, month: JsNumber, year: JsNumber, mode: GstMode): (r: Option<MonthInvoiceRequest>)
    ensures r.Some? <==> MonthYearValid(month, year)
    ensures r.Some? ==>
      && 1 <= r.value.month <= 12 && 2000 <= r.value.year <= 2100
      && month == Finite(r.value.month as real) && year == Finite(r.value.year as real)
      && r.value.clientId == clientId && r.value.gstMode == mode
  {
    if MonthYearValid(month, year) then
      Some(MonthInvoiceRequest(clientId, month.value.Floor, year.value.Floor, mode))
    else None
  }

  /** Every calendar month of the years 2000 to 2100 passes the picker's check. */
  lemma EveryMonthValid(m: int, y: int)
    requires 1 <= m <= 12 && 2000 <= y <= 2100
    ensures MonthYearValid(Finite(m as real), Finite(y as real))
  {
  }

  /** A fractional or out-of-range month never passes. */
  lemma FractionalMonthRejected(year: JsNumber)
    ensures !MonthYearValid(Finite(1.5), year)
    ensures !MonthYearValid(Finite(0.0), year)
    ensures !MonthYearValid(Finite(13.0), year)
    ensures !MonthYearValid(NotFinite, year)
  {
    assert 1.5.Floor == 1;
  }

  /* -------------------------------- services ------------------------------ */

  datatype ServiceForm = ServiceForm(
    kind: ServiceKind,
    billingType: BillingType,
    amountMonthly: Option<real>,
    amountOneTime: Option<real>,
    startDate: Option<int>,
    expiryDate: Option<int>,
    notes: string)

  /** `canSubmitService`: a start date, and a positive amount for the chosen billing type. */
  predicate CanSubmitService(f: ServiceForm) {
    f.startDate.Some?
    && (f.billingType == Monthly ==> ToNum(f.amountMonthly) > 0.0)
    && (f.billingType == OneTime ==> ToNum(f.amountOneTime) > 0.0)
  }

  /** `Number(x || 0)` as the service reads it: 0 is falsy, so it arrives as no value. */
  function NumberField(x: Option<real>): (r: Option<real>)
    ensures r.GetOr(0.0) == ToNum(x)
  {
    if ToNum(x) == 0.0 then None else Some(ToNum(x))
  }

  /** The posted body: amounts as numbers, the start date or else now, the expiry date only when given. */
  function ServicePayload(f: ServiceForm, now: int): ServiceBody {
    ServiceBody(Some(f.kind), NumberField(f.amountMonthly), NumberField(f.amountOneTime), Some(f.billingType),
      Some(f.startDate.GetOr(now)), f.expiryDate, if f.notes == "" then None else Some(f.notes))
  }

  /** The service never refuses what the form posts: kind and billing type are always chosen, and the start date falls back to now. */
  lemma PayloadAlwaysAccepted(f: ServiceForm, now: int)
    ensures ServiceOf(ServicePayload(f, now)).Success?
  {
  }

  /**
   * What the guard adds: a service the form lets through starts on the date
   * typed and carries a positive amount for its billing type.
   */
  lemma GuardedServiceStored(f: ServiceForm, now: int)
    requires CanSubmitService(f)
    ensures var r := ServiceOf(ServicePayload(f, now));
      && r.Success? && r.value.kind == f.kind && r.value.billingType == f.billingType
      && r.value.startDate == f.startDate.value && r.value.expiryDate == f.expiryDate
      && r.value.amountMonthly == ToNum(f.amountMonthly) && r.value.amountOneTime == ToNum(f.amountOneTime)
      && (f.billingType == Monthly ==> r.value.amountMonthly > 0.0)
      && (f.billingType == OneTime ==> r.value.amountOneTime > 0.0)
  {
    var body := ServicePayload(f, now);
    assert body.amountMonthly.GetOr(0.0) == ToNum(f.amountMonthly);
    assert body.amountOneTime.GetOr(0.0) == ToNum(f.amountOneTime);
  }

  /* ---------------------------- tags, attendees ---------------------------- */

  /** `s ? s.split(",").map(t => t.trim()).filter(Boolean) : []`, for tags and attendees. */
  function CommaList(s: string): seq<string> {
    if s == "" then [] else SplitTrimmed(s, ',')
  }

  /**
   * The guard on the empty string changes nothing: the list is the non-blank
   * trimmed pieces between commas. No entry is blank, holds a comma, or has
   * white space at either end, and every piece that is not blank is kept.
   */
  lemma CommaListSpec(s: string)
    ensures CommaList(s) == SplitTrimmed(s, ',')
    ensures forall x :: x in CommaList(s) ==> x != [] && ',' !in x && Trim(x) == x
    ensures forall k :: 0 <= k < |Split(s, ',')| && Trim(Split(s, ',')[k]) != [] ==>
      Trim(Split(s, ',')[k]) in CommaList(s)
  {
    if s == "" {
      assert Split(s, ',') == [""];
      assert TrimAll([""], SpaceChars) == [TrimOf("", SpaceChars)];
      assert TrimOf("", SpaceChars) == "";
    }
    SplitTrimmedSpec(s, ',');
    var t := TrimAll(Split(s, ','), SpaceChars);
    forall x | x in CommaList(s) ensures Trim(x) == x {
      var k :| 0 <= k < |t| && t[k] == x;
      TrimIdempotent(Split(s, ',')[k]);
    }
  }

  /* ------------------------------ credentials ------------------------------ */

  datatype CredentialForm = CredentialForm(
    panelName: string,
    projectName: string,
    environment: Environment,
    url: string,
    username: string,
    password: string,
    tags: string,
    notes: string)

  /** The guard of `addCredential` on both pages: panel, username and password given. */
  predicate CanAddCredential(f: CredentialForm) {
    f.panelName != "" && f.username != "" && f.password != ""
  }

  /** The tags the posted body carries. */
  function CredentialTags(f: CredentialForm): (tags: seq<string>)
    ensures f.tags == "" ==> tags == []
  {
    CommaList(f.tags)
  }

  /* ------------------------------ action items ----------------------------- */

  /** The action-item draft of the meeting builder. */
  datatype ActionDraft = ActionDraft(description: string, owner: string, dueDate: Option<int>)

  const EmptyDraft: ActionDraft := ActionDraft("", "", None)

  /** The builder: the items added so far and the draft being typed. */
  datatype Builder = Builder(items: seq<ActionDraft>, draft: ActionDraft)

  /** `addActionDraft`: an undescribed draft is refused and nothing changes; otherwise a copy is appended and the draft is cleared. */
  function AddActionDraft(b: Builder): (r: Builder)
    ensures b.draft.description == "" ==> r == b
    ensures b.draft.description != "" ==> r.items == b.items + [b.draft] && r.draft == EmptyDraft
  {
    if b.draft.description == "" then b else Builder(b.items + [b.draft], EmptyDraft)
  }

  /** `removeActionItem(i)`: exactly item `i` goes, the others keep their order; the draft is untouched. */
  function RemoveActionItem(b: Builder, i: int): (r: Builder)
    ensures 0 <= i < |b.items| ==> r.items == b.items[..i] + b.items[i + 1..]
    ensures !(0 <= i < |b.items|) ==> r.items == b.items
    ensures r.draft == b.draft
  {
    RemoveAtSpec(b.items, i);
    b.(items := RemoveAt(b.items, i))
  }

  /** Every listed item has a description. */
  predicate AllDescribed(items: seq<ActionDraft>) {
    forall k :: 0 <= k < |items| ==> items[k].description != ""
  }

  /** Adding and removing keep every listed item described. */
  lemma BuilderKeepsDescribed(b: Builder, i: int)
    requires AllDescribed(b.items)
    ensures AllDescribed(AddActionDraft(b).items)
    ensures AllDescribed(RemoveActionItem(b, i).items)
  {
    var r := RemoveActionItem(b, i).items;
    if 0 <= i < |b.items| {
      forall k | 0 <= k < |r| ensures r[k].description != "" {
        if k < i { assert r[k] == b.items[k]; } else { assert r[k] == b.items[k + 1]; }
      }
    }
  }

  /** The item the meeting body carries for a listed draft: status OPEN, the due date only when given. */
  function Submitted(a: ActionDraft): ActionItem {
    ActionItem(a.description, Some(a.owner), a.dueDate, Some(Open))
  }

  function SubmittedItems(items: seq<ActionDraft>): (r: seq<ActionItem>)
    ensures |r| == |items|
    ensures forall k :: 0 <= k < |items| ==> r[k] == Submitted(items[k])
  {
    seq(|items|, k requires 0 <= k < |items| => Submitted(items[k]))
  }

  /** Every submitted item is OPEN and keeps its draft's description, owner and due date, in order. */
  lemma SubmittedSpec(items: seq<ActionDraft>)
    requires AllDescribed(items)
    ensures forall k :: 0 <= k < |items| ==>
      var s := SubmittedItems(items)[k];
      s.status == Some(Open) && s.description == items[k].description && s.description != ""
      && s.owner == Some(items[k].owner) && s.dueDate == items[k].dueDate
  {
  }

  /** After the meeting is saved the list is emptied; the draft stays as it was. */
  function AfterSave(b: Builder): (r: Builder)
    ensures r.items == [] && r.draft == b.draft
  {
    b.(items := [])
  }

  /** Whatever the builder held, what is submitted next starts from no items. */
  lemma SaveEmpties(b: Builder)
    ensures SubmittedItems(AfterSave(b).items) == []
    ensures AllDescribed(AfterSave(b).items)
  {
  }
}
