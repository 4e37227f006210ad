/**
 * Value types shared by the OTP service: the enumerations (code status,
 * user role, delivery channel), the user and operation records, the OTP
 * configuration, the exceptions the services raise, and the flat JSON
 * payloads the controllers read.
 */
module Model {

  datatype Option<+T> = None | Some(value: T)

  /** The outcome of an operation that may throw: a value, or the exception. */
  datatype Result<+T> = Ok(value: T) | Err(fault: Fault)

  /** The Java exceptions the core raises, by kind. */
  datatype Fault =
    | IllegalArgument(message: string)
    | IllegalState(message: string)
    | NullPointer
    | NegativeArraySize
    | Runtime(message: string)
    | IOFailure  // reading or parsing a request body failed

  /** Status of a one-time code. */
  datatype Status = ACTIVE | EXPIRED | USED

  /** User roles in declaration order: USER < ADMIN. */
  datatype Role = USER | ADMIN

  function Ordinal(r: Role): (n: nat)
    ensures n == 0 <==> r == USER
    ensures n == 1 <==> r == ADMIN
  {
    match r
    case USER => 0
    case ADMIN => 1
  }

  /** A row of the users table. */
  datatype User = User(id: int, username: string, passwordHash: string, email: string, role: Role)

  /** A row of the operations reference table. */
  datatype Operation = Operation(number: int, name: string, description: string)

  /** The process-wide OTP settings (the single row of the config table). */
  datatype OtpConfig = OtpConfig(id: int, length: int, ttlSeconds: int)

  /** Delivery channels, in declaration order. */
  datatype Channel = EMAIL | SMS | TELEGRAM | FILE

  /** `NotificationChannel.valueOf`: exact, case-sensitive constant names. */
  function ChannelValueOf(name: string): (r: Result<Channel>)
    ensures r.Ok? <==> name in {"EMAIL", "SMS", "TELEGRAM", "FILE"}
    ensures r.Err? ==> r.fault.IllegalArgument?
    ensures name == "EMAIL" ==> r == Ok(EMAIL)
    ensures name == "SMS" ==> r == Ok(SMS)
    ensures name == "TELEGRAM" ==> r == Ok(TELEGRAM)
    ensures name == "FILE" ==> r == Ok(FILE)
  {
    if name == "EMAIL" then Ok(EMAIL)
    else if name == "SMS" then Ok(SMS)
    else if name == "TELEGRAM" then Ok(TELEGRAM)
    else if name == "FILE" then Ok(FILE)
    else Err(IllegalArgument("No enum constant otpservice.service.notification.NotificationChannel." + name))
  }

  /** What a notification sender is handed: the recipient, the code and the operation. */
  datatype Delivery = Delivery(channel: Channel, recipient: User, code: string, operationNumber: int)

  // ---------------------------------------------------------------------
  // JSON request bodies, flattened to their top-level members.

  datatype JsonValue = JNum(n: int) | JText(s: string) | JBool(b: bool) | JNull

  type Payload = map<string, JsonValue>

  predicate IsDigit(c: char) { '0' <= c <= '9' }

  /** The character of a decimal digit. */
  function DigitChar(d: int): (c: char)
    requires 0 <= d < 10
    ensures IsDigit(c) && c as int - '0' as int == d
  {
    ('0' as int + d) as char
  }

  /** Decimal digits of a natural number, most significant first. */
  function NatText(n: nat): (s: string)
    ensures |s| >= 1
    ensures forall k :: 0 <= k < |s| ==> IsDigit(s[k])
    decreases n
  {
    if n < 10 then [DigitChar(n)] else NatText(n / 10) + [DigitChar(n % 10)]
  }

  /** Value of a non-empty digit string. */
  function DigitsValue(s: string): (v: nat)
    requires forall k :: 0 <= k < |s| ==> IsDigit(s[k])
    decreases |s|
  {
    if s == [] then 0 else DigitsValue(s[..|s| - 1]) * 10 + DigitValue(s[|s| - 1])
  }

  function DigitValue(c: char): (d: nat)
    requires IsDigit(c)
    ensures d < 10 && DigitChar(d) == c
  {
    c as int - '0' as int
  }

  lemma {:induction false} DigitsValueOfNatText(n: nat)
    ensures DigitsValue(NatText(n)) == n
    decreases n
  {
    if n >= 10 {
      var s := NatText(n);
      assert s[..|s| - 1] == NatText(n / 10);
      DigitsValueOfNatText(n / 10);
    }
  }

  /** `JsonNode.asText()`. */
  function AsText(v: JsonValue): string
  {
    match v
    case JText(s) => s
    case JNum(n) => if n < 0 then "-" + NatText(-n) else NatText(n)
    case JBool(b) => if b then "true" else "false"
    case JNull => "null"
  }

  // ---------------------------------------------------------------------
  // Java `int` values.

  const TWO_32: int := 0x1_0000_0000
  const INT_MIN: int := -0x8000_0000
  const INT_MAX: int := 0x7fff_ffff

  predicate InIntRange(x: int) { INT_MIN <= x <= INT_MAX }

  /** Java `int` arithmetic and the `(int)` cast: wrap an integer into [-2^31, 2^31). */
  function Int32(x: int): (r: int)
    ensures InIntRange(r)
    ensures (r - x) % TWO_32 == 0
    ensures InIntRange(x) ==> r == x
  {
    (x + 0x8000_0000) % TWO_32 - 0x8000_0000
  }

  /** Optional sign followed by one or more decimal digits. */
  predicate IsIntegerText(s: string)
  {
    var body := Unsigned(s);
    |body| > 0 && forall k :: 0 <= k < |body| ==> IsDigit(body[k])
  }

  /** The text after a leading minus or plus sign, if there is one. */
  function Unsigned(s: string): string
  {
    if |s| > 0 && (s[0] == '-' || s[0] == '+') then s[1..] else s
  }

  /** The integer an integer text denotes, of any size. */
  function TextValue(s: string): int
    requires IsIntegerText(s)
  {
    if s[0] == '-' then -(DigitsValue(Unsigned(s)) as int) else DigitsValue(Unsigned(s))
  }

  /**
   * `JsonNode.asInt()`: a number is narrowed to `int` as `(int)` narrows a
   * `long`; integer text is parsed, and text outside the `int` range, like
   * any other text, reads 0; true reads 1, false and null 0.
   */
  function AsInt(v: JsonValue): (r: int)
    ensures InIntRange(r)
    ensures v.JNum? ==> (r - v.n) % TWO_32 == 0
    ensures v.JNum? && InIntRange(v.n) ==> r == v.n
    ensures v.JText? && IsIntegerText(v.s) && InIntRange(TextValue(v.s)) ==> r == TextValue(v.s)
    ensures v.JText? && !(IsIntegerText(v.s) && InIntRange(TextValue(v.s))) ==> r == 0
  {
    match v
    case JNum(n) => Int32(n)
    case JText(s) => if IsIntegerText(s) && InIntRange(TextValue(s)) then TextValue(s) else 0
    case JBool(b) => if b then 1 else 0
    case JNull => 0
  }

  /**
   * A number and its decimal text read alike exactly within the `int` range;
   * outside it the number wraps while the text reads 0.
   */
  lemma {:induction false} AsIntOfAsText(n: int)
    ensures AsInt(JText(AsText(JNum(n)))) == if InIntRange(n) then AsInt(JNum(n)) else 0
  {
    var t := AsText(JNum(n));
    if n < 0 {
      DigitsValueOfNatText(-n);
      assert Unsigned(t) == NatText(-n);
    } else {
      DigitsValueOfNatText(n);
      assert Unsigned(t) == NatText(n);
    }
    assert IsIntegerText(t) && TextValue(t) == n;
  }

  // ---------------------------------------------------------------------
  // Java string predicates used by the controllers and the filter.

  function Lower(c: char): char
  {
    if 'A' <= c <= 'Z' then (c as int + 32) as char else c
  }

  /** `String.equalsIgnoreCase`, for ASCII letters. */
  predicate EqualsIgnoreCase(a: string, b: string)
  {
    |a| == |b| && forall k :: 0 <= k < |a| ==> Lower(a[k]) == Lower(b[k])
  }

  /** `String.startsWith`, case-sensitive. */
  predicate StartsWith(s: string, prefix: string)
  {
    |prefix| <= |s| && s[..|prefix|] == prefix
  }

  /** `String.contains`. */
  predicate Contains(s: string, part: string)
  {
    exists k :: 0 <= k <= |s| - |part| && OccursAt(s, part, k)
  }

  predicate OccursAt(s: string, part: string, k: int)
  {
    0 <= k <= |s| - |part| && s[k..k + |part|] == part
  }
}
