/**
 * The rule a secret room's password must pass at creation (RoomService.secretRoomPasswordValidate):
 * first `Integer.valueOf(password)` must not throw, then the text must be exactly 4 characters.
 */
module SecretPassword {
  import opened Common

  /** Which of the two checks rejected the password; the numeric check runs first. */
  datatype PasswordError = NotNumeric | WrongLength

  const IntMax: int := 0x7fff_ffff

  predicate IsDigit(c: char)
  {
    '0' <= c <= '9'
  }

  predicate AllDigits(s: string)
  {
    forall k | 0 <= k < |s| :: IsDigit(s[k])
  }

  /** The decimal value of a string of digits. */
  function DigitsValue(s: string): nat
    requires AllDigits(s)
  {
    if s == [] then 0 else DigitsValue(s[..|s| - 1]) * 10 + (s[|s| - 1] as int - '0' as int)
  }

  function Pow10(n: nat): nat
  {
    if n == 0 then 1 else 10 * Pow10(n - 1)
  }

  /**
   * `Integer.valueOf(s)` returns rather than throwing NumberFormatException: an optional
   * leading '+' or '-', at least one digit after it, and a value inside the 32-bit range.
   */
  predicate ParsesAsInt(s: string)
  {
    if |s| > 0 && (s[0] == '+' || s[0] == '-') then
      && |s| > 1
      && AllDigits(s[1..])
      && DigitsValue(s[1..]) <= (if s[0] == '-' then IntMax + 1 else IntMax)
    else
      && |s| > 0
      && AllDigits(s)
      && DigitsValue(s) <= IntMax
  }

  /** The error secretRoomPasswordValidate throws, if any; a null password fails the numeric check. */
  function PasswordIssue(password: Option<string>): (r: Option<PasswordError>)
    ensures r.None? <==> password.Some? && ParsesAsInt(password.value) && |password.value| == 4
    ensures r == Some(NotNumeric) <==> password.None? || !ParsesAsInt(password.value)
  {
    match password
    case None => Some(NotNumeric)
    case Some(s) =>
      if !ParsesAsInt(s) then Some(NotNumeric)
      else if |s| != 4 then Some(WrongLength)
      else None
  }

  lemma {:induction false} DigitsValueBound(s: string)
    requires AllDigits(s)
    ensures DigitsValue(s) < Pow10(|s|)
  {
    if s != [] {
      DigitsValueBound(s[..|s| - 1]);
    }
  }

  /**
   * For four characters the 32-bit range never matters: a secret password is accepted
   * exactly when it is four digits, or a sign followed by three digits.
   */
  lemma FourCharacterPasswords(s: string)
    requires |s| == 4
    ensures PasswordIssue(Some(s)).None? <==>
              AllDigits(s) || ((s[0] == '+' || s[0] == '-') && AllDigits(s[1..]))
  {
    if AllDigits(s) {
      DigitsValueBound(s);
      assert Pow10(4) == 10000;
    }
    if AllDigits(s[1..]) {
      DigitsValueBound(s[1..]);
      assert Pow10(3) == 1000;
    }
  }

  lemma PasswordExamples()
    ensures PasswordIssue(Some("1234")).None?
    ensures PasswordIssue(Some("-123")).None?
    ensures PasswordIssue(Some("+123")).None?
    ensures PasswordIssue(Some("12a3")) == Some(NotNumeric)
    ensures PasswordIssue(Some("12345")) == Some(WrongLength)
    ensures PasswordIssue(Some("")) == Some(NotNumeric)
    ensures PasswordIssue(Some("-")) == Some(NotNumeric)
    ensures PasswordIssue(None) == Some(NotNumeric)
  {
    FourCharacterPasswords("1234");
    FourCharacterPasswords("-123");
    FourCharacterPasswords("+123");
    FourCharacterPasswords("12a3");
    var five := "12345";
    assert AllDigits(five);
    DigitsValueBound(five);
    assert Pow10(5) == 100000;
  }

  /** A number too large for an int fails the numeric check, although its length is also wrong. */
  lemma OverflowIsNotNumeric()
    ensures PasswordIssue(Some("2147483648")) == Some(NotNumeric)
  {
    var digits := "2147483648";
    assert DigitsValue("2") == 2;
    assert "21"[..1] == "2";
    assert DigitsValue("21") == 21;
    assert "214"[..2] == "21";
    assert DigitsValue("214") == 214;
    assert "2147"[..3] == "214";
    assert DigitsValue("2147") == 2147;
    assert "21474"[..4] == "2147";
    assert DigitsValue("21474") == 21474;
    assert "214748"[..5] == "21474";
    assert DigitsValue("214748") == 214748;
    assert "2147483"[..6] == "214748";
    assert DigitsValue("2147483") == 2147483;
    assert "21474836"[..7] == "2147483";
    assert DigitsValue("21474836") == 21474836;
    assert "214748364"[..8] == "21474836";
    assert DigitsValue("214748364") == 214748364;
    assert "2147483648"[..9] == "214748364";
    assert DigitsValue("2147483648") == 2147483648;
  }
}
