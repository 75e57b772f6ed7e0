/**
 * What a handler hands back to the web framework: a value (status 200), an
 * HTTPException with a status code and a detail, or an unhandled Python
 * exception, which the framework turns into a generic 500 response.
 */
module Http {

  /** The `detail` texts the handlers raise, one constructor per message. */
  datatype Detail =
    | UserAlreadyRegistered
    | IncorrectCredentials
    | UserNotFound
    | OnlySellerCanAdd
    | OnlyCustomerCanBuy
    | NoItem
    | NotEnough(shortfall: int)

  datatype Response<T> =
    | Ok(value: T)
    | HttpError(status: int, detail: Detail)
    | Internal

  /** Re-types a failed response, as an exception propagates through a caller. */
  function Propagate<T, U>(r: Response<T>): Response<U>
    requires !r.Ok?
  {
    if r.HttpError? then HttpError(r.status, r.detail) else Internal
  }

  /** The exact detail string sent to the client. */
  function Message(d: Detail): string
  {
    match d
    case UserAlreadyRegistered => "User already registered"
    case IncorrectCredentials => "Incorrect email or password"
    case UserNotFound => "User not found"
    case OnlySellerCanAdd => "Only seller can add items!"
    case OnlyCustomerCanBuy => "Only customer can buy items!"
    case NoItem => "No item!"
    case NotEnough(k) => "Not enough " + IntToString(k) + " items!"
  }

  /**
   * The "Not enough" detail is the fixed prefix, the shortfall in decimal
   * digits, and the fixed suffix; the digits read back as the shortfall.
   */
  lemma ShortfallInMessage(shortfall: nat)
    ensures var m := Message(NotEnough(shortfall));
            && |m| >= |"Not enough  items!"| + 1
            && m[..11] == "Not enough "
            && m[|m| - 7..] == " items!"
            && (forall i :: 11 <= i < |m| - 7 ==> IsDigit(m[i]))
            && ParseNat(m[11..|m| - 7]) == shortfall
  {
    var digits := NatToString(shortfall);
    var m := Message(NotEnough(shortfall));
    assert m == "Not enough " + digits + " items!";
    assert m[11..|m| - 7] == digits;
    NatToStringRoundTrip(shortfall);
  }

  predicate IsDigit(c: char)
  {
    '0' <= c <= '9'
  }

  function DigitChar(d: nat): (c: char)
    requires d < 10
    ensures IsDigit(c) && c as int - '0' as int == d
  {
    ('0' as int + d) as char
  }

  /** Decimal rendering of a natural number, as Python's `str` of an int. */
  function NatToString(n: nat): (s: string)
    ensures |s| >= 1
    ensures forall i :: 0 <= i < |s| ==> IsDigit(s[i])
    ensures |s| > 1 ==> s[0] != '0'
    decreases n
  {
    if n < 10 then [DigitChar(n)] else NatToString(n / 10) + [DigitChar(n % 10)]
  }

  /** Decimal rendering of an integer: a minus sign, then the digits. */
  function IntToString(n: int): string
  {
    if n < 0 then "-" + NatToString(-n) else NatToString(n)
  }

  /** Reads a string of decimal digits back as a number. */
  function ParseNat(s: string): nat
    requires forall i :: 0 <= i < |s| ==> IsDigit(s[i])
  {
    if |s| == 0 then 0
    else
      var last := s[|s| - 1];
      assert IsDigit(last);
      10 * ParseNat(s[..|s| - 1]) + (last as int - '0' as int)
  }

  /** The shortfall written into the "Not enough" detail can be read back exactly. */
  lemma {:induction false} NatToStringRoundTrip(n: nat)
    ensures ParseNat(NatToString(n)) == n
    decreases n
  {
    if n >= 10 {
      var prefix := NatToString(n / 10);
      var s := prefix + [DigitChar(n % 10)];
      assert s[..|s| - 1] == prefix;
      NatToStringRoundTrip(n / 10);
    }
  }
}
