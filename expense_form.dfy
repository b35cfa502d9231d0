/**
 * The expense form of the browser client (client/src/pages/ExpensesPage.jsx):
 * `parseAmount`, the lenient reading of a typed amount, and the guard and
 * body of "add expense".
 *
 * `parseAmount` is a chain of string rewrites followed by `Number`: trim;
 * a comma becomes the decimal point when there is no dot; a space or comma
 * standing before whole groups of three digits that run up to a dot or the
 * end is dropped; every character other than a digit, '.' and '-' is
 * dropped; and what is left is read as a JavaScript number, anything that
 * does not read (or is not finite) counting as 0.
 */
module ExpenseForm {
  import opened Wrappers
  import opened Money
  import opened Text
  import opened Expenses
  import Pdf

  /* ------------------------- the rewriting stages ------------------------- */

  /** The position of the first `c` in `s`, if any (`indexOf`, with -1 as `None`). */
  function Find(s: string, c: char): (r: Option<nat>)
    ensures r.None? <==> forall k :: 0 <= k < |s| ==> s[k] != c
    ensures r.Some? ==> r.value < |s| && s[r.value] == c && forall k :: 0 <= k < r.value ==> s[k] != c
  {
    if s == [] then None
    else if s[0] == c then Some(0)
    else
      match Find(s[1..], c)
      case None => None
      case Some(k) => Some(k + 1)
  }

  /** `s.replace(a, b)` with a one-character pattern: only the first `a` is replaced. */
  function ReplaceFirst(s: string, a: char, b: char): (r: string)
    ensures Find(s, a).None? ==> r == s
    ensures Find(s, a).Some? ==> var k := Find(s, a).value; r == s[..k] + [b] + s[k + 1..]
  {
    match Find(s, a)
    case None => s
    case Some(k) => s[..k] + [b] + s[k + 1..]
  }

  /** The comma stage `includes(",") && !includes(".")`: the first comma becomes the decimal point. */
  function CommaAsPoint(s: string): string {
    if Find(s, ',').Some? && Find(s, '.').None? then ReplaceFirst(s, ',', '.') else s
  }

  /** The lookahead `(?=(\d{3})+(\.|$))` at position `j`: one or more groups of three digits, then a dot or the end. */
  predicate GroupsAhead(s: string, j: nat)
    requires j <= |s|
    decreases |s| - j
  {
    j + 3 <= |s| && IsDigit(s[j]) && IsDigit(s[j + 1]) && IsDigit(s[j + 2])
    && (j + 3 == |s| || s[j + 3] == '.' || GroupsAhead(s, j + 3))
  }

  /** A character `[\s,]` may be a separator. */
  predicate SeparatorChar(c: char) {
    c in SpaceChars || c == ','
  }

  /** Position `k` holds a separator that the global replace drops. */
  predicate DroppedAt(s: string, k: nat)
    requires k < |s|
  {
    SeparatorChar(s[k]) && GroupsAhead(s, k + 1)
  }

  /**
   * The separator stage from position `k` on. Each match consumes only the
   * separator itself, so every position is judged against the string as it
   * was before the replace.
   */
  function DropFrom(s: string, k: nat): (r: string)
    requires k <= |s|
    ensures |r| <= |s| - k
    decreases |s| - k
  {
    if k == |s| then "" else (if DroppedAt(s, k) then "" else [s[k]]) + DropFrom(s, k + 1)
  }

  function DropSeparators(s: string): string {
    DropFrom(s, 0)
  }

  predicate NumericChar(c: char) {
    IsDigit(c) || c == '.' || c == '-'
  }

  /** The strip stage `replace(/[^\d.-]/g, "")`: the digits, dots and minus signs, in order. */
  function KeepNumeric(s: string): (r: string)
    ensures |r| <= |s|
    ensures forall i :: 0 <= i < |r| ==> NumericChar(r[i])
    ensures (forall i :: 0 <= i < |s| ==> NumericChar(s[i])) ==> r == s
  {
    if s == [] then []
    else if NumericChar(s[0]) then [s[0]] + KeepNumeric(s[1..])
    else KeepNumeric(s[1..])
  }

  /** The stages after the trim. */
  function AfterTrim(t: string): string {
    KeepNumeric(DropSeparators(CommaAsPoint(t)))
  }

  /** The string `Number` is given. */
  function Cleaned(s: string): string {
    AfterTrim(Trim(s))
  }

  /* -------------------------------- Number -------------------------------- */

  function Pow10(n: nat): (p: nat)
    ensures p >= 1
  {
    if n == 0 then 1 else 10 * Pow10(n - 1)
  }

  /** The unsigned decimal literals over digits and dots: `d+`, `d+.d*` or `.d+`; anything else is NaN. */
  function UnsignedDecimal(t: string): JsNumber {
    if Find(t, '.').Some? then
      var k := Find(t, '.').value;
      var w, p := t[..k], t[k + 1..];
      if AllDigits(w) && AllDigits(p) && |w| + |p| > 0 then
        Finite(DigitsValue(w) as real + DigitsValue(p) as real / Pow10(|p|) as real)
      else NotFinite
    else if |t| > 0 && AllDigits(t) then Finite(DigitsValue(t) as real)
    else NotFinite
  }

  /** `Number(s)` for a string of digits, dots and minus signs: "" is 0, one leading minus negates. */
  function NumberOf(s: string): JsNumber {
    if s == "" then Finite(0.0)
    else if s[0] == '-' then
      match UnsignedDecimal(s[1..])
      case Finite(x) => Finite(-x)
      case NotFinite => NotFinite
    else UnsignedDecimal(s)
  }

  /** `parseAmount`: an empty or missing value is 0, and so is anything that does not read as a number. */
  function ParseAmount(v: Option<string>): (n: real)
    ensures v.None? || v == Some("") ==> n == 0.0
    ensures v.Some? && v.value != "" ==> n == NumberOrZero(NumberOf(Cleaned(v.value)))
  {
    if v.None? || v.value == "" then 0.0 else NumberOrZero(NumberOf(Cleaned(v.value)))
  }

  /** `Number.isFinite(n) ? n : 0`. */
  function NumberOrZero(n: JsNumber): real {
    match n
    case Finite(x) => x
    case NotFinite => 0.0
  }

  /* -------------------------- stage-by-stage facts ------------------------ */

  /** Digits, dots and commas are neither white space nor dropped by the strip stage (except the comma). */
  lemma PlainChar(c: char)
    requires IsDigit(c) || c == '.' || c == ','
    ensures c !in SpaceChars
    ensures c != ',' ==> NumericChar(c) && !SeparatorChar(c)
  {
  }

  /** Digits, dots and commas only. */
  predicate PlainText(s: string) {
    forall k :: 0 <= k < |s| ==> IsDigit(s[k]) || s[k] == '.' || s[k] == ','
  }

  /** A string with no white space is its own trim. */
  lemma TrimNoSpace(s: string)
    requires forall k :: 0 <= k < |s| ==> s[k] !in SpaceChars
    ensures Trim(s) == s
  {
    var i, j := TrimSpec(s);
    assert i == 0 && j == |s|;
  }

  /** A plain text is its own trim, so the later stages see it as typed. */
  lemma TrimPlain(s: string)
    requires PlainText(s)
    ensures Cleaned(s) == AfterTrim(s)
  {
    forall k | 0 <= k < |s| ensures s[k] !in SpaceChars {
      PlainChar(s[k]);
    }
    TrimNoSpace(s);
  }

  /** Positions from `k` up to `m` that hold no dropped separator are kept as they are. */
  lemma {:induction false} DropKeeps(s: string, k: nat, m: nat)
    requires k <= m <= |s|
    requires forall i :: k <= i < m ==> !DroppedAt(s, i)
    ensures DropFrom(s, k) == s[k..m] + DropFrom(s, m)
    decreases m - k
  {
    if k < m {
      DropKeeps(s, k + 1, m);
      assert !DroppedAt(s, k);
      assert DropFrom(s, k) == [s[k]] + DropFrom(s, k + 1);
      assert s[k..m] == [s[k]] + s[k + 1..m];
    } else {
      assert s[k..m] == [];
    }
  }

  /** Digits and dots go through the separator and strip stages untouched. */
  lemma LaterStagesKeep(t: string)
    requires forall k :: 0 <= k < |t| ==> IsDigit(t[k]) || t[k] == '.'
    ensures KeepNumeric(DropSeparators(t)) == t
  {
    forall k | 0 <= k < |t| ensures NumericChar(t[k]) && !SeparatorChar(t[k]) {
      PlainChar(t[k]);
    }
    DropKeeps(t, 0, |t|);
    assert t[0..|t|] == t;
  }

  /** The characters of `w + "." + p`, by position. */
  lemma DecimalChars(w: string, p: string)
    requires AllDigits(w) && AllDigits(p)
    ensures var s := w + "." + p;
      |s| == |w| + 1 + |p| && s[|w|] == '.' && s[..|w|] == w && s[|w| + 1..] == p
      && forall k :: 0 <= k < |s| && k != |w| ==> IsDigit(s[k])
  {
    var s := w + "." + p;
    assert s[..|w|] == w;
    assert s[|w| + 1..] == p;
    forall k | 0 <= k < |s| && k != |w| ensures IsDigit(s[k]) {
      if k < |w| {
        assert s[k] == w[k];
      } else {
        assert s[k] == p[k - |w| - 1];
      }
    }
  }

  /** The first dot of digits, a dot and digits is the one between them. */
  lemma DecimalPoint(w: string, p: string)
    requires AllDigits(w) && AllDigits(p)
    ensures Find(w + "." + p, '.') == Some(|w|) && Find(w + "." + p, ',').None?
  {
    var s := w + "." + p;
    DecimalChars(w, p);
    assert Find(s, '.').Some?;
  }

  /** The value of digits, a dot and digits. */
  function DecimalValue(w: string, p: string): real
    requires AllDigits(w) && AllDigits(p)
  {
    DigitsValue(w) as real + DigitsValue(p) as real / Pow10(|p|) as real
  }

  /** Digits, a dot and digits read as the number they write. */
  lemma NumberOfDecimal(w: string, p: string)
    requires AllDigits(w) && AllDigits(p) && |w| > 0
    ensures NumberOf(w + "." + p) == Finite(DecimalValue(w, p))
  {
    DecimalChars(w, p);
    DecimalPoint(w, p);
  }

  /** A typed decimal without separators reads as its value. */
  lemma ParsesDecimal(w: string, p: string)
    requires AllDigits(w) && AllDigits(p) && |w| > 0
    ensures ParseAmount(Some(w + "." + p)) == DecimalValue(w, p)
  {
    var s := w + "." + p;
    DecimalChars(w, p);
    TrimPlain(s);
    AfterTrimPlain(s);
    NumberOfDecimal(w, p);
  }

  lemma CentsParts(c: nat)
    ensures (c / 100) as real + (c % 100) as real / 100.0 == c as real / 100.0
  {
    assert c == (c / 100) * 100 + c % 100;
  }

  /** An amount typed as the documents print it (`toFixed(2)` of a non-negative number of cents) reads back as that amount. */
  lemma ParsesPrintedAmount(c: nat)
    ensures ParseAmount(Some(Pdf.UnsignedText(c))) == c as real / 100.0
  {
    var w, p := PrintedParts(c);
    ParsesDecimal(w, p);
    CentsParts(c);
  }

  /** The printed text of `c` cents is the whole units, a dot and the two-digit cents. */
  lemma PrintedParts(c: nat) returns (w: string, p: string)
    ensures AllDigits(w) && AllDigits(p) && |w| > 0 && Pdf.UnsignedText(c) == w + "." + p
    ensures DecimalValue(w, p) == (c / 100) as real + (c % 100) as real / 100.0
  {
    w, p := NatToString(c / 100), PadStart(NatToString(c % 100), 2, '0');
    TwoDigits(c % 100);
    DigitsValueOfNatToString(c / 100);
    assert Pow10(|p|) == 100;
  }

  /** With a comma and no dot the comma is the decimal point: "1,234" reads as 1.234, not 1234. */
  lemma CommaWithoutPointIsDecimal(w: string, p: string)
    requires AllDigits(w) && AllDigits(p) && |w| > 0
    ensures ParseAmount(Some(w + "," + p)) == DecimalValue(w, p)
  {
    CleanedComma(w, p);
    NumberOfDecimal(w, p);
  }

  lemma CleanedComma(w: string, p: string)
    requires AllDigits(w) && AllDigits(p)
    ensures Cleaned(w + "," + p) == w + "." + p
  {
    CommaBecomesPoint(w, p);
    TrimPlain(w + "," + p);
    AfterTrimComma(w, p);
  }

  lemma AfterTrimComma(w: string, p: string)
    requires AllDigits(w) && AllDigits(p)
    ensures AfterTrim(w + "," + p) == w + "." + p
  {
    CommaBecomesPoint(w, p);
    DecimalChars(w, p);
    LaterStagesKeep(w + "." + p);
  }

  lemma CommaBecomesPoint(w: string, p: string)
    requires AllDigits(w) && AllDigits(p)
    ensures PlainText(w + "," + p)
    ensures CommaAsPoint(w + "," + p) == w + "." + p
  {
    var s := w + "," + p;
    assert s[|w|] == ',';
    forall k | 0 <= k < |s| && k != |w| ensures IsDigit(s[k]) {
      if k < |w| {
        assert s[k] == w[k];
      } else {
        assert s[k] == p[k - |w| - 1];
      }
    }
    FindNone(s, '.');
    FindAt(s, ',', |w|);
    assert s[..|w|] == w && s[|w| + 1..] == p;
  }

  lemma FindNone(s: string, c: char)
    requires forall k :: 0 <= k < |s| ==> s[k] != c
    ensures Find(s, c).None?
  {
  }

  lemma FindAt(s: string, c: char, i: nat)
    requires i < |s| && s[i] == c && forall k :: 0 <= k < i ==> s[k] != c
    ensures Find(s, c) == Some(i)
  {
  }

  /** The characters of `a + "," + g + "." + p`, by position. */
  lemma GroupedChars(a: string, g: string, p: string)
    requires AllDigits(a) && AllDigits(g) && |g| == 3 && AllDigits(p)
    ensures var s := a + "," + g + "." + p;
      |s| == |a| + 5 + |p| && s[|a|] == ',' && s[|a| + 4] == '.'
      && s[..|a|] == a && s[|a| + 1..] == g + "." + p
      && forall k :: 0 <= k < |s| && k != |a| && k != |a| + 4 ==> IsDigit(s[k])
  {
    var s := a + "," + g + "." + p;
    assert s[..|a|] == a;
    assert s[|a| + 1..] == g + "." + p;
    forall k | 0 <= k < |s| && k != |a| && k != |a| + 4 ensures IsDigit(s[k]) {
      if k < |a| {
        assert s[k] == a[k];
      } else if k < |a| + 4 {
        assert s[k] == g[k - |a| - 1];
      } else {
        assert s[k] == p[k - |a| - 5];
      }
    }
  }

  /** The separator stage drops just the comma before the group. */
  lemma DropsGroupComma(a: string, g: string, p: string)
    requires AllDigits(a) && AllDigits(g) && |g| == 3 && AllDigits(p)
    ensures DropSeparators(a + "," + g + "." + p) == a + g + "." + p
  {
    var s := a + "," + g + "." + p;
    GroupedChars(a, g, p);
    forall i | 0 <= i < |s| && i != |a| ensures !DroppedAt(s, i) {
      PlainChar(s[i]);
    }
    assert GroupsAhead(s, |a| + 1);
    DropKeeps(s, 0, |a|);
    DropKeeps(s, |a| + 1, |s|);
    assert s[0..|a|] == a;
    assert s[|a| + 1..|s|] == g + "." + p;
    assert a + (g + "." + p) == a + g + "." + p;
  }

  /** With a dot present, a comma before a group of three digits is a thousands separator: "1,234.50" reads as 1234.5. */
  lemma ThousandsSeparatorDropped(a: string, g: string, p: string)
    requires AllDigits(a) && |a| > 0 && AllDigits(g) && |g| == 3 && AllDigits(p)
    ensures AllDigits(a + g)
    ensures ParseAmount(Some(a + "," + g + "." + p)) == DecimalValue(a + g, p)
  {
    CleanedGrouped(a, g, p);
    NumberOfDecimal(a + g, p);
  }

  lemma CleanedGrouped(a: string, g: string, p: string)
    requires AllDigits(a) && AllDigits(g) && |g| == 3 && AllDigits(p)
    ensures AllDigits(a + g)
    ensures Cleaned(a + "," + g + "." + p) == (a + g) + "." + p
  {
    GroupedPlain(a, g, p);
    TrimPlain(a + "," + g + "." + p);
    AfterTrimGrouped(a, g, p);
  }

  lemma AfterTrimGrouped(a: string, g: string, p: string)
    requires AllDigits(a) && AllDigits(g) && |g| == 3 && AllDigits(p)
    ensures AllDigits(a + g)
    ensures AfterTrim(a + "," + g + "." + p) == (a + g) + "." + p
  {
    GroupedPlain(a, g, p);
    DropsGroupComma(a, g, p);
    DigitsConcat(a, g);
    assert a + g + "." + p == (a + g) + "." + p;
    DecimalChars(a + g, p);
    LaterStagesKeep((a + g) + "." + p);
  }

  lemma GroupedPlain(a: string, g: string, p: string)
    requires AllDigits(a) && AllDigits(g) && |g| == 3 && AllDigits(p)
    ensures PlainText(a + "," + g + "." + p)
    ensures CommaAsPoint(a + "," + g + "." + p) == a + "," + g + "." + p
  {
    var s := a + "," + g + "." + p;
    GroupedChars(a, g, p);
    assert Find(s, '.').Some?;
  }

  lemma DigitsConcat(a: string, g: string)
    requires AllDigits(a) && AllDigits(g)
    ensures AllDigits(a + g)
  {
    forall k | 0 <= k < |a + g| ensures IsDigit((a + g)[k]) {
      if k < |a| { assert (a + g)[k] == a[k]; } else { assert (a + g)[k] == g[k - |a|]; }
    }
  }

  /** Two decimal points do not read as a number, so they count as 0: "1.2.3" gives 0. */
  lemma TwoPointsIsZero(w: string, p: string, q: string)
    requires AllDigits(w) && AllDigits(p) && AllDigits(q)
    ensures ParseAmount(Some(w + "." + p + "." + q)) == 0.0
  {
    var s := w + "." + p + "." + q;
    TwoPointsChars(w, p, q);
    TrimPlain(s);
    AfterTrimPlain(s);
  }

  /** Digits and dots go through every stage after the trim untouched. */
  lemma AfterTrimPlain(s: string)
    requires forall k :: 0 <= k < |s| ==> IsDigit(s[k]) || s[k] == '.'
    ensures AfterTrim(s) == s
  {
    LaterStagesKeep(s);
    FindNone(s, ',');
  }

  lemma TwoPointsChars(w: string, p: string, q: string)
    requires AllDigits(w) && AllDigits(p) && AllDigits(q)
    ensures var s := w + "." + p + "." + q;
      && PlainText(s) && (forall k :: 0 <= k < |s| ==> IsDigit(s[k]) || s[k] == '.')
      && s[0] != '-' && Find(s, '.') == Some(|w|) && !AllDigits(s[|w| + 1..])
  {
    var s := w + "." + p + "." + q;
    var f := p + "." + q;
    assert s == w + "." + f;
    assert s[|w|] == '.' && s[|w| + 1..] == f;
    assert f[|p|] == '.';
    forall k | 0 <= k < |s| ensures IsDigit(s[k]) || s[k] == '.' {
      if k < |w| {
        assert s[k] == w[k];
      } else if k > |w| {
        assert s[k] == f[k - |w| - 1];
        if k - |w| - 1 < |p| { assert f[k - |w| - 1] == p[k - |w| - 1]; }
        else if k - |w| - 1 > |p| { assert f[k - |w| - 1] == q[k - |w| - 2 - |p|]; }
      }
    }
    forall k | 0 <= k < |w| ensures s[k] != '.' {
      assert s[k] == w[k];
    }
    FindAt(s, '.', |w|);
  }

  /** A lone minus sign does not read as a number either. */
  lemma LoneMinusIsZero()
    ensures ParseAmount(Some("-")) == 0.0
  {
    var s := "-";
    assert s[0] == '-';
    TrimNoSpace(s);
    LaterStagesMinus(s);
    assert s[1..] == "";
  }

  lemma LaterStagesMinus(s: string)
    requires s == "-"
    ensures KeepNumeric(DropSeparators(CommaAsPoint(s))) == s
  {
    assert Find(s, ',').None?;
    assert !DroppedAt(s, 0);
    DropKeeps(s, 0, 1);
  }

  /* ---------------------------- adding an expense --------------------------- */

  datatype ExpenseFormState = ExpenseFormState(
    name: Option<string>,
    amount: Option<string>,
    mode: ExpenseMode,
    paymentTo: string,
    date: Option<int>,
    remarks: string)

  /** The name `createExpense` posts: `(form.name || "").trim()`. */
  function PostedName(f: ExpenseFormState): string {
    Trim(f.name.GetOr(""))
  }

  /** The guard of `createExpense`: a name that is not blank and an amount above 0. */
  predicate CanAdd(f: ExpenseFormState) {
    PostedName(f) != "" && ParseAmount(f.amount) > 0.0
  }

  /** The posted body: the trimmed name, the parsed amount, the mode, and an empty payee, date or remark left out. */
  function AddBody(f: ExpenseFormState): (b: ExpenseBody)
    ensures b.name == Some(PostedName(f)) && b.amount == Num(ParseAmount(f.amount))
    ensures b.mode == Some(f.mode) && b.date == f.date
  {
    ExpenseBody(Some(PostedName(f)), Num(ParseAmount(f.amount)), Some(f.mode), TextOrNone(f.paymentTo), f.date, TextOrNone(f.remarks))
  }

  /** The form's guard is exactly the service's own check on the body it posts. */
  lemma GuardIsServiceCheck(f: ExpenseFormState)
    ensures CanAdd(f) <==> !RejectedInput(AddBody(f))
  {
  }

  /** A body the form lets through is stored: under the typed name, trimmed, for the parsed amount, in the chosen mode. */
  lemma GuardedExpenseStored(f: ExpenseFormState, id: nat, now: int)
    requires CanAdd(f)
    ensures var r := CreateOutcome(AddBody(f), id, now);
      && r.Success? && r.value.name == PostedName(f) && r.value.amount == ParseAmount(f.amount)
      && r.value.mode == f.mode && r.value.date == f.date.GetOr(now)
  {
    TrimIdempotent(f.name.GetOr(""));
    StoredFromBody(AddBody(f), PostedName(f), ParseAmount(f.amount), id, now);
  }

  /** A body with a non-blank trimmed name and a positive amount is stored under that name and amount. */
  lemma StoredFromBody(b: ExpenseBody, name: string, amount: real, id: nat, now: int)
    requires b.name == Some(name) && name != "" && Trim(name) == name
    requires b.amount == Num(amount) && amount > 0.0
    ensures var r := CreateOutcome(b, id, now);
      && r.Success? && r.value.name == name && r.value.amount == amount
      && r.value.mode == b.mode.GetOr(OtherExpense) && r.value.date == b.date.GetOr(now)
  {
    assert !RejectedInput(b) && !b.amount.NaN?;
    assert Trim(b.name.value) != [];
  }
}
