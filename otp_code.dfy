/**
 * The OTP entity object: six mutable fields with setters, field-wise
 * `equals` and an `Objects.hash`-style `hashCode`.
 */
module OtpCodeEntity {
  import opened Model

  const TWO_64: int := 0x1_0000_0000_0000_0000

  /** `Long.hashCode`: the two 32-bit halves of the 64-bit value, exclusive-or'ed. */
  function LongHash(v: int): int
  {
    var u := v % TWO_64;
    var hi := u / TWO_32;
    var lo := u % TWO_32;
    Int32(((lo as bv32) ^ (hi as bv32)) as int)
  }

  /** `String.hashCode`: s[0]*31^(n-1) + ... + s[n-1], in `int` arithmetic. */
  function StringHash(s: string): int
    decreases |s|
  {
    if s == [] then 0 else Int32(31 * StringHash(s[..|s| - 1]) + s[|s| - 1] as int)
  }

  /**
   * Hash of a status constant. Java uses the enum object's identity hash,
   * which varies between runs; the ordinal stands in for it.
   */
  function StatusHash(s: Status): int
  {
    match s
    case ACTIVE => 0
    case EXPIRED => 1
    case USED => 2
  }

  /** Hash of a nullable `Long` (`null` hashes to 0). */
  function NullableLongHash(v: Option<int>): int
  {
    match v
    case None => 0
    case Some(x) => LongHash(x)
  }

  /** `Arrays.hashCode` over the element hashes: start at 1, then 31 * h + e for each element. */
  function HashFold(hs: seq<int>): int
    decreases |hs|
  {
    if hs == [] then 1 else Int32(31 * HashFold(hs[..|hs| - 1]) + hs[|hs| - 1])
  }

  class OtpCode {
    var id: Option<int>
    var userId: int
    var operationNumber: int
    var code: string
    var status: Status
    var createdAt: Option<int>

    /** The full constructor; `id` and `createdAt` may be absent until the code is saved. */
    constructor (id: Option<int>, userId: int, operationNumber: int, code: string,
                 status: Status, createdAt: Option<int>)
      ensures this.id == id && this.userId == userId && this.operationNumber == operationNumber
      ensures this.code == code && this.status == status && this.createdAt == createdAt
    {
      this.id := id;
      this.userId := userId;
      this.operationNumber := operationNumber;
      this.code := code;
      this.status := status;
      this.createdAt := createdAt;
    }

    method SetId(id: Option<int>)
      modifies this
      ensures this.id == id
      ensures userId == old(userId) && operationNumber == old(operationNumber) && code == old(code)
      ensures status == old(status) && createdAt == old(createdAt)
    {
      this.id := id;
    }

    method SetUserId(userId: int)
      modifies this
      ensures this.userId == userId
      ensures id == old(id) && operationNumber == old(operationNumber) && code == old(code)
      ensures status == old(status) && createdAt == old(createdAt)
    {
      this.userId := userId;
    }

    method SetOperationNumber(operationNumber: int)
      modifies this
      ensures this.operationNumber == operationNumber
      ensures id == old(id) && userId == old(userId) && code == old(code)
      ensures status == old(status) && createdAt == old(createdAt)
    {
      this.operationNumber := operationNumber;
    }

    method SetCode(code: string)
      modifies this
      ensures this.code == code
      ensures id == old(id) && userId == old(userId) && operationNumber == old(operationNumber)
      ensures status == old(status) && createdAt == old(createdAt)
    {
      this.code := code;
    }

    method SetStatus(status: Status)
      modifies this
      ensures this.status == status
      ensures id == old(id) && userId == old(userId) && operationNumber == old(operationNumber)
      ensures code == old(code) && createdAt == old(createdAt)
    {
      this.status := status;
    }

    method SetCreatedAt(createdAt: Option<int>)
      modifies this
      ensures this.createdAt == createdAt
      ensures id == old(id) && userId == old(userId) && operationNumber == old(operationNumber)
      ensures code == old(code) && status == old(status)
    {
      this.createdAt := createdAt;
    }

    /** The six fields `equals` and `hashCode` are defined over agree with those of `c`. */
    predicate SameFields(c: OtpCode)
      reads this, c
    {
      id == c.id && userId == c.userId && operationNumber == c.operationNumber
      && code == c.code && status == c.status && createdAt == c.createdAt
    }

    /** `equals`: identity short-cut, then null and class checks, then the six fields. */
    predicate Equals(o: object?)
      reads this, o
    {
      if this == o then true
      else if o == null || !(o is OtpCode) then false
      else SameFields(o as OtpCode)
    }

    /** `hashCode`, as `Objects.hash(id, userId, operationNumber, code, status, createdAt)`. */
    function HashCode(): (h: int)
      reads this
      ensures -0x8000_0000 <= h < 0x8000_0000
    {
      HashFold([NullableLongHash(id), LongHash(userId), Int32(operationNumber),
                StringHash(code), StatusHash(status), NullableLongHash(createdAt)])
    }
  }

  /** `equals` holds exactly when the other value is an OTP code with the same six fields. */
  lemma EqualsIsFieldEquality(a: OtpCode, o: object?)
    ensures a.Equals(o) <==> o != null && o is OtpCode && a.SameFields(o as OtpCode)
  {
  }

  /** `equals` is reflexive, false against null and false against an object of another class. */
  lemma EqualsReflexiveAndTyped(a: OtpCode, o: object?)
    ensures a.Equals(a)
    ensures o == null ==> !a.Equals(o)
    ensures o != null && !(o is OtpCode) ==> !a.Equals(o)
  {
  }

  lemma EqualsSymmetric(a: OtpCode, b: OtpCode)
    ensures a.Equals(b) <==> b.Equals(a)
  {
  }

  /** Equal codes have equal hash codes: both are computed from the same six fields. */
  lemma EqualsImpliesSameHash(a: OtpCode, b: OtpCode)
    requires a.Equals(b)
    ensures a.HashCode() == b.HashCode()
  {
  }
}
