/** The account page: the edit form filled from the account, the number
    inputs read through `parseInt`, the update payload and the read-only
    display. Every mapping follows JavaScript's falsy values: `""`, `0`,
    `NaN`, `null` and a missing field. */
module AccountPage {
  import opened Outcomes
  import opened Text

  // ---------------------------------------------------------------------
  // Numbers read from inputs
  // ---------------------------------------------------------------------

  /** A number held by the form: an integer, or the `NaN` of a failed
      `parseInt` */
  datatype Num = Int(n: int) | NaN

  /** A number is truthy when it is neither 0 nor `NaN` */
  predicate Truthy(x: Num) {
    x.Int? && x.n != 0
  }

  /** The value of `c` as a digit of base `radix` (10 or 16) */
  function DigitValue(c: char, radix: nat): (d: Option<nat>)
    ensures d.Some? ==> d.value < radix
  {
    if '0' <= c <= '9' && (c as int - '0' as int) < radix then Some(c as int - '0' as int)
    else if radix == 16 && 'a' <= c <= 'f' then Some(c as int - 'a' as int + 10)
    else if radix == 16 && 'A' <= c <= 'F' then Some(c as int - 'A' as int + 10)
    else None
  }

  /** The longest prefix of `s` made of digits of base `radix` */
  function DigitPrefix(s: string, radix: nat): (r: string)
    ensures |r| <= |s| && r == s[..|r|]
    ensures forall i :: 0 <= i < |r| ==> DigitValue(r[i], radix).Some?
    ensures |r| < |s| ==> DigitValue(s[|r|], radix).None?
  {
    if s != [] && DigitValue(s[0], radix).Some? then
      var rest := DigitPrefix(s[1..], radix);
      assert [s[0]] + rest == s[..|rest| + 1];
      [s[0]] + rest
    else []
  }

  /** The number the digits `ds` spell in base `radix`, most significant
      first */
  function DigitsValue(ds: string, radix: nat): nat
    requires forall i :: 0 <= i < |ds| ==> DigitValue(ds[i], radix).Some?
  {
    if ds == [] then 0
    else DigitsValue(ds[..|ds| - 1], radix) * radix + DigitValue(ds[|ds| - 1], radix).value
  }

  /** `parseInt(s)` without a radix: leading white space, an optional sign,
      `0x`/`0X` for base 16, then as many digits as there are; no digit at
      all is `NaN`. A negative zero is the number 0. */
  function ParseInt(s: string): (r: Num)
    ensures r.NaN? <==> DigitPrefix(Unprefixed(Unsigned(TrimStart(s))), Radix(Unsigned(TrimStart(s)))) == []
    ensures r.Int? && StartsWith(TrimStart(s), "-") ==> r.n <= 0
    ensures r.Int? && !StartsWith(TrimStart(s), "-") ==> r.n >= 0
  {
    var t := TrimStart(s);
    var u := Unsigned(t);
    var ds := DigitPrefix(Unprefixed(u), Radix(u));
    if ds == [] then NaN
    else
      var v: int := DigitsValue(ds, Radix(u));
      Int(if StartsWith(t, "-") then -v else v)
  }

  /** The text after a leading `+` or `-` */
  function Unsigned(t: string): string {
    if StartsWith(t, "-") || StartsWith(t, "+") then t[1..] else t
  }

  predicate HexPrefixed(u: string) {
    StartsWith(u, "0x") || StartsWith(u, "0X")
  }

  function Radix(u: string): nat {
    if HexPrefixed(u) then 16 else 10
  }

  function Unprefixed(u: string): string {
    if HexPrefixed(u) then u[2..] else u
  }

  /** `parseInt` is `NaN` exactly when the first character after the leading
      white space, one optional sign and an optional `0x`/`0X` is missing or
      is no digit of the base */
  lemma ParseIntNaNIff(s: string)
    ensures var t := TrimStart(s);
            var u := if t != [] && (t[0] == '-' || t[0] == '+') then t[1..] else t;
            var hex := 2 <= |u| && u[0] == '0' && (u[1] == 'x' || u[1] == 'X');
            var d := if hex then u[2..] else u;
            ParseInt(s).NaN? <==> d == [] || DigitValue(d[0], if hex then 16 else 10).None?
  {
    var t := TrimStart(s);
    var u := if t != [] && (t[0] == '-' || t[0] == '+') then t[1..] else t;
    SignAt(t);
    assert Unsigned(t) == u;
    HexAt(u);
    DigitPrefixEmpty(Unprefixed(u), Radix(u));
  }

  lemma DigitPrefixEmpty(d: string, radix: nat)
    ensures DigitPrefix(d, radix) == [] <==> d == [] || DigitValue(d[0], radix).None?
  {
  }

  /** `StartsWith` on one character looks at the first one */
  lemma SignAt(t: string)
    ensures StartsWith(t, "-") <==> t != [] && t[0] == '-'
    ensures StartsWith(t, "+") <==> t != [] && t[0] == '+'
  {
    if t != [] {
      assert t[..1] == [t[0]];
    }
  }

  lemma HexAt(u: string)
    ensures HexPrefixed(u) <==> 2 <= |u| && u[0] == '0' && (u[1] == 'x' || u[1] == 'X')
  {
    if 2 <= |u| {
      assert u[..2] == [u[0], u[1]];
    }
  }

  /** An empty input, or one whose first non-blank character is no digit or
      sign, reads as `NaN` */
  lemma ParseIntNaN(s: string)
    requires TrimStart(s) == [] || (TrimStart(s)[0] != '-' && TrimStart(s)[0] != '+' && !('0' <= TrimStart(s)[0] <= '9'))
    ensures ParseInt(s) == NaN
  {
    var t := TrimStart(s);
    if t != [] {
      PlainStart(t);
      assert DigitValue(t[0], 10).None?;
    }
  }

  /** A text starting with anything but a sign or a digit has neither sign
      nor base prefix */
  lemma PlainStart(t: string)
    requires t != [] && t[0] != '-' && t[0] != '+' && !('0' <= t[0] <= '9')
    ensures Unsigned(t) == t && !HexPrefixed(t)
  {
    assert t[..1] == [t[0]];
    assert !StartsWith(t, "-") && !StartsWith(t, "+");
    if |t| >= 2 {
      assert t[..2][0] == t[0];
    }
  }

  /** `String(n)` for an integer: decimal digits, `-` for a negative number */
  function Decimal(n: int): (s: string)
  {
    if n < 0 then "-" + Digits(-n) else Digits(n)
  }

  function Digits(n: nat): (s: string)
    ensures s != []
    ensures forall i :: 0 <= i < |s| ==> '0' <= s[i] <= '9'
  {
    var last := ['0' + (n % 10) as char];
    if n < 10 then last else Digits(n / 10) + last
  }

  lemma {:induction false} DigitsValueOf(n: nat)
    ensures forall i :: 0 <= i < |Digits(n)| ==> DigitValue(Digits(n)[i], 10).Some?
    ensures DigitsValue(Digits(n), 10) == n
  {
    var s := Digits(n);
    if n >= 10 {
      DigitsValueOf(n / 10);
      assert s[..|s| - 1] == Digits(n / 10);
    }
  }

  lemma {:induction false} DigitPrefixAll(s: string, radix: nat)
    requires forall i :: 0 <= i < |s| ==> DigitValue(s[i], radix).Some?
    ensures DigitPrefix(s, radix) == s
  {
    if s != [] {
      DigitPrefixAll(s[1..], radix);
    }
  }

  lemma DigitsNotHex(ds: string)
    requires forall i :: 0 <= i < |ds| ==> '0' <= ds[i] <= '9'
    ensures !HexPrefixed(ds)
  {
    if |ds| >= 2 {
      assert ds[..2][1] == ds[1];
    }
  }

  /** Digits alone read as their value */
  lemma ParseDigits(ds: string, m: nat)
    requires ds == Digits(m)
    ensures !HexPrefixed(ds)
    ensures DigitPrefix(Unprefixed(ds), Radix(ds)) == ds
    ensures DigitsValue(ds, 10) == m
  {
    DigitsValueOf(m);
    DigitsNotHex(ds);
    DigitPrefixAll(ds, 10);
  }

  lemma ParseNonNegative(n: int)
    requires n >= 0
    ensures ParseInt(Decimal(n)) == Int(n)
  {
    var ds := Digits(n);
    assert Decimal(n) == ds;
    UnsignedDigits(ds);
    ParseSignedDigits(ds, n);
  }

  lemma ParseNegative(n: int)
    requires n < 0
    ensures ParseInt(Decimal(n)) == Int(n)
  {
    var ds := Digits(-n);
    assert Decimal(n) == "-" + ds;
    MinusDigits(ds);
    ParseSignedDigits("-" + ds, -n);
  }

  /** A text with no leading white space whose digits after the sign are
      `Digits(m)` reads as `m`, negated after a `-` */
  lemma ParseSignedDigits(t: string, m: nat)
    requires TrimStart(t) == t && Unsigned(t) == Digits(m)
    ensures ParseInt(t) == Int(if StartsWith(t, "-") then -(m as int) else m)
  {
    ParseDigits(Digits(m), m);
  }

  lemma UnsignedDigits(ds: string)
    requires ds != [] && forall i :: 0 <= i < |ds| ==> '0' <= ds[i] <= '9'
    ensures TrimStart(ds) == ds && Unsigned(ds) == ds && !StartsWith(ds, "-")
  {
    assert !IsWhite(ds[0]);
    assert ds[..1] == [ds[0]];
  }

  lemma MinusDigits(ds: string)
    ensures var s := "-" + ds;
            TrimStart(s) == s && Unsigned(s) == ds && StartsWith(s, "-")
  {
    var s := "-" + ds;
    assert !IsWhite(s[0]);
    assert s[..1] == "-" && s[1..] == ds;
  }

  /** The lower-case hexadecimal digit of `d` */
  function HexDigit(d: nat): (c: char)
    requires d < 16
    ensures DigitValue(c, 16) == Some(d)
  {
    if d < 10 then '0' + d as char else 'a' + (d - 10) as char
  }

  /** `n.toString(16)` */
  function Hex(n: nat): (s: string)
    ensures s != []
    ensures forall i :: 0 <= i < |s| ==> DigitValue(s[i], 16).Some?
  {
    var last := [HexDigit(n % 16)];
    if n < 16 then last else Hex(n / 16) + last
  }

  lemma {:induction false} HexValueOf(n: nat)
    ensures DigitsValue(Hex(n), 16) == n
  {
    var s := Hex(n);
    if n >= 16 {
      HexValueOf(n / 16);
      assert s[..|s| - 1] == Hex(n / 16);
    }
  }

  /** `0x` and the hexadecimal digits of a number read back as the number */
  lemma ParseHex(n: nat)
    ensures ParseInt("0x" + Hex(n)) == Int(n)
  {
    var h := Hex(n);
    var t := "0x" + h;
    assert !IsWhite(t[0]);
    assert TrimStart(t) == t;
    SignAt(t);
    assert Unsigned(t) == t;
    HexAt(t);
    assert t[2..] == h;
    DigitPrefixAll(h, 16);
    HexValueOf(n);
  }

  /** What a number input shows for a whole number reads back as that
      number */
  lemma ParseDecimal(n: int)
    ensures ParseInt(Decimal(n)) == Int(n)
  {
    if n < 0 {
      ParseNegative(n);
    } else {
      ParseNonNegative(n);
    }
  }

  // ---------------------------------------------------------------------
  // Account and edit form
  // ---------------------------------------------------------------------

  /** The fields of `AccountResponse` the page reads; `None` is a missing
      or `null` field */
  datatype Account = Account(
    nickname: Option<string>, name: Option<string>, email: Option<string>,
    profileImage: Option<string>, phoneNumber: Option<string>,
    cycle: Option<int>, targetPeriod: Option<int>, targetAmount: Option<int>)

  /** `editForm` */
  datatype EditForm = EditForm(
    nickname: string, profileImage: string, phoneNumber: string,
    cycle: Num, targetPeriod: Num, targetAmount: Num)

  /** A string field is filled when it is present and not empty */
  predicate Filled(s: Option<string>) {
    s.Some? && s.value != []
  }

  /** A number field is set when it is present and not 0 */
  predicate Set(x: Option<int>) {
    x.Some? && x.value != 0
  }

  /** `s ? s : ""` */
  function TextOr(s: Option<string>): (r: string)
    ensures Filled(s) ==> r == s.value
    ensures !Filled(s) ==> r == []
  {
    if Filled(s) then s.value else ""
  }

  /** `x ? x : 0` */
  function NumberOr(x: Option<int>): (r: Num)
    ensures Set(x) ==> r == Int(x.value)
    ensures !Set(x) ==> r == Int(0)
  {
    if Set(x) then Int(x.value) else Int(0)
  }

  /** The form filled from an account, on load and on cancel */
  function FormOf(a: Account): (f: EditForm)
    ensures !Truthy(f.cycle) <==> !Set(a.cycle)
    ensures !Truthy(f.targetPeriod) <==> !Set(a.targetPeriod)
    ensures !Truthy(f.targetAmount) <==> !Set(a.targetAmount)
    ensures f.nickname == [] <==> !Filled(a.nickname)
    ensures (Filled(a.nickname) ==> f.nickname == a.nickname.value) && (!Filled(a.nickname) ==> f.nickname == [])
    ensures (Filled(a.profileImage) ==> f.profileImage == a.profileImage.value) && (!Filled(a.profileImage) ==> f.profileImage == [])
    ensures (Filled(a.phoneNumber) ==> f.phoneNumber == a.phoneNumber.value) && (!Filled(a.phoneNumber) ==> f.phoneNumber == [])
    ensures (Set(a.cycle) ==> f.cycle == Int(a.cycle.value)) && (!Set(a.cycle) ==> f.cycle == Int(0))
    ensures (Set(a.targetPeriod) ==> f.targetPeriod == Int(a.targetPeriod.value)) && (!Set(a.targetPeriod) ==> f.targetPeriod == Int(0))
    ensures (Set(a.targetAmount) ==> f.targetAmount == Int(a.targetAmount.value)) && (!Set(a.targetAmount) ==> f.targetAmount == Int(0))
  {
    EditForm(TextOr(a.nickname), TextOr(a.profileImage), TextOr(a.phoneNumber),
             NumberOr(a.cycle), NumberOr(a.targetPeriod), NumberOr(a.targetAmount))
  }

  /** The number inputs */
  datatype NumberField = Cycle | TargetPeriod | TargetAmount

  /** `setEditForm({ ...editForm, field: parseInt(text) })` */
  function EnterNumber(f: EditForm, field: NumberField, text: string): (r: EditForm)
    ensures r.nickname == f.nickname && r.profileImage == f.profileImage && r.phoneNumber == f.phoneNumber
    ensures field == Cycle ==> r.cycle == ParseInt(text) && r.targetPeriod == f.targetPeriod && r.targetAmount == f.targetAmount
    ensures field == TargetPeriod ==> r.targetPeriod == ParseInt(text) && r.cycle == f.cycle && r.targetAmount == f.targetAmount
    ensures field == TargetAmount ==> r.targetAmount == ParseInt(text) && r.cycle == f.cycle && r.targetPeriod == f.targetPeriod
  {
    match field
    case Cycle => f.(cycle := ParseInt(text))
    case TargetPeriod => f.(targetPeriod := ParseInt(text))
    case TargetAmount => f.(targetAmount := ParseInt(text))
  }

  /** What the page holds: the loaded account (none before loading), whether
      it is editing and the form */
  datatype Screen = Screen(account: Option<Account>, editing: bool, form: EditForm)

  /** After a successful load */
  function Loaded(a: Account): Screen {
    Screen(Some(a), false, FormOf(a))
  }

  /** `handleEdit` */
  function Edit(s: Screen): (r: Screen)
    ensures r.editing && r.account == s.account && r.form == s.form
  {
    s.(editing := true)
  }

  /** `handleCancel`: the form goes back to the account's values (it stays as
      it is when there is no account) and editing stops */
  function Cancel(s: Screen): (r: Screen)
    ensures !r.editing && r.account == s.account
    ensures s.account.Some? ==> r.form == FormOf(s.account.value)
    ensures s.account.None? ==> r.form == s.form
  {
    Screen(s.account, false, if s.account.Some? then FormOf(s.account.value) else s.form)
  }

  /** Editing and cancelling, whatever was typed in between, gives back the
      page as it was after loading */
  lemma CancelRestoresLoaded(a: Account, typed: EditForm)
    ensures Cancel(Edit(Loaded(a)).(form := typed)) == Loaded(a)
  {
  }

  // ---------------------------------------------------------------------
  // Submit
  // ---------------------------------------------------------------------

  /** The body of the `PUT` request: `None` is `null` for the strings and
      an absent property for the numbers */
  datatype Payload = Payload(
    nickname: Option<string>, profileImage: Option<string>, phoneNumber: Option<string>,
    cycle: Option<int>, targetPeriod: Option<int>, targetAmount: Option<int>)

  /** `s || null` */
  function TextOrNull(s: string): (r: Option<string>)
    ensures r.None? <==> s == []
    ensures r.Some? ==> r.value == s
  {
    if s == [] then None else Some(s)
  }

  /** `if (x) payload.field = x` */
  function NumberIfTruthy(x: Num): (r: Option<int>)
    ensures r.Some? <==> Truthy(x)
    ensures r.Some? ==> x == Int(r.value)
  {
    if Truthy(x) then Some(x.n) else None
  }

  function PayloadOf(f: EditForm): Payload {
    Payload(TextOrNull(f.nickname), TextOrNull(f.profileImage), TextOrNull(f.phoneNumber),
            NumberIfTruthy(f.cycle), NumberIfTruthy(f.targetPeriod), NumberIfTruthy(f.targetAmount))
  }

  /** `handleSubmit`: nothing is sent before an account is loaded */
  function Submit(s: Screen): (r: Option<Payload>)
    ensures s.account.None? ==> r.None?
    ensures s.account.Some? ==> r == Some(PayloadOf(s.form))
  {
    if s.account.None? then None else Some(PayloadOf(s.form))
  }

  /** Submitting a form that was not touched sends back the account's
      values: a string is `null` exactly when the account had none, and a
      number is sent exactly when the account had a non-zero one */
  lemma SubmitUntouched(a: Account)
    ensures var p := Submit(Loaded(a)).value;
            && (p.nickname.None? <==> !Filled(a.nickname)) && (Filled(a.nickname) ==> p.nickname == a.nickname)
            && (p.profileImage.None? <==> !Filled(a.profileImage)) && (Filled(a.profileImage) ==> p.profileImage == a.profileImage)
            && (p.phoneNumber.None? <==> !Filled(a.phoneNumber)) && (Filled(a.phoneNumber) ==> p.phoneNumber == a.phoneNumber)
            && (p.cycle.Some? <==> Set(a.cycle)) && (Set(a.cycle) ==> p.cycle == a.cycle)
            && (p.targetPeriod.Some? <==> Set(a.targetPeriod)) && (Set(a.targetPeriod) ==> p.targetPeriod == a.targetPeriod)
            && (p.targetAmount.Some? <==> Set(a.targetAmount)) && (Set(a.targetAmount) ==> p.targetAmount == a.targetAmount)
  {
  }

  /** A number input that was cleared or holds no number is left out of the
      request */
  lemma ClearedNumberOmitted(s: Screen, field: NumberField, text: string)
    requires s.account.Some?
    requires TrimStart(text) == [] || (TrimStart(text)[0] != '-' && TrimStart(text)[0] != '+' && !('0' <= TrimStart(text)[0] <= '9'))
    ensures var p := Submit(s.(form := EnterNumber(s.form, field, text))).value;
            match field
            case Cycle => p.cycle.None?
            case TargetPeriod => p.targetPeriod.None?
            case TargetAmount => p.targetAmount.None?
  {
    ParseIntNaN(text);
  }

  // ---------------------------------------------------------------------
  // Display
  // ---------------------------------------------------------------------

  /** `value || "-"` */
  function OrDash(s: Option<string>): (r: string)
    ensures r == "-" <==> !Filled(s) || s.value == "-"
    ensures Filled(s) ==> r == s.value
  {
    if Filled(s) then s.value else "-"
  }

  /** The nickname, name, email and phone number as shown when not
      editing */
  datatype Shown = Shown(nickname: string, name: string, email: string, phoneNumber: string)

  function ShownOf(a: Account): Shown {
    Shown(OrDash(a.nickname), OrDash(a.name), OrDash(a.email), OrDash(a.phoneNumber))
  }

  /** The heading: `account.nickname || account.name` */
  function Title(a: Account): (r: Option<string>)
    ensures Filled(a.nickname) ==> r == a.nickname
    ensures !Filled(a.nickname) ==> r == a.name
  {
    if Filled(a.nickname) then a.nickname else a.name
  }

  /** The name under the heading is shown only when both the nickname and
      the name are filled */
  predicate ShowsSubtitle(a: Account) {
    Filled(a.nickname) && Filled(a.name)
  }

  /** The name appears twice, as heading and subtitle, never: when the
      subtitle shows, the heading is the nickname; without a nickname the
      name is the heading and there is no subtitle */
  lemma TitleAndSubtitle(a: Account)
    ensures ShowsSubtitle(a) ==> Title(a) == a.nickname
    ensures !Filled(a.nickname) && Filled(a.name) ==> Title(a) == a.name
    ensures !Filled(a.nickname) && !Filled(a.name) ==> !Filled(Title(a))
  {
  }

  /** Every displayed field falls back to `-` exactly when it is missing or
      empty */
  lemma DisplayFallback(a: Account)
    ensures var sh := ShownOf(a);
            && (!Filled(a.nickname) ==> sh.nickname == "-") && (Filled(a.nickname) ==> sh.nickname == a.nickname.value)
            && (!Filled(a.name) ==> sh.name == "-") && (Filled(a.name) ==> sh.name == a.name.value)
            && (!Filled(a.email) ==> sh.email == "-") && (Filled(a.email) ==> sh.email == a.email.value)
            && (!Filled(a.phoneNumber) ==> sh.phoneNumber == "-") && (Filled(a.phoneNumber) ==> sh.phoneNumber == a.phoneNumber.value)
  {
  }
}
