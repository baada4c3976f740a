/**
  The one-time-password lifecycle: requesting a code, requesting it again, and verifying it,
  as transitions of the table of OTP records.

  The current time (milliseconds) is a parameter of every handler. Whether a user with the
  number exists, whether the SMS went out and whether the login tokens could be issued are
  answers of collaborators and are parameters too. The code's digits come from `draws`, as
  in `Helpers.GenerateOtpNumber`.
*/
module OtpController {
  import opened Wrappers
  import Helpers

  const OTP_LENGTH: nat := 6
  /** The schema default of `expiresAt`: two minutes after creation. */
  const STORED_TTL_MS: int := 2 * 60 * 1000
  /** The expiry the development response reports: five minutes after the request. */
  const REPORTED_TTL_MS: int := 5 * 60 * 1000

  const MOBILE_REQUIRED: string := "Mobile number is required"
  const WAIT_BEFORE_RETRY: string := "Please wait before requesting new OTP"
  const SEND_FAILED: string := "Failed to send OTP"
  const MOBILE_AND_OTP_REQUIRED: string := "Mobile number & otp is required"
  const INVALID_OR_EXPIRED: string := "Invalid OTP or OTP has expired"
  const TOKENS_FAILED: string := "Something went wrong while generating referesh and access token"

  /** One document of the OTP collection; `id` stands for its `_id`. */
  datatype OtpRecord = OtpRecord(id: nat, mobileNumber: string, otp: string, isVerified: bool, expiresAt: int)

  /** What a handler answers. */
  datatype Reply =
    | OtpSent(otp: string, expiresAt: int)
    | NewUserVerified(mobileNumber: string)
    | UserLoggedIn(mobileNumber: string)
    | Failure(status: nat, message: string)

  /** An unverified record that has not expired at `now`. */
  predicate Live(r: OtpRecord, now: int)
  {
    r.expiresAt > now && !r.isVerified
  }

  /** The filter of the handlers' `findOne`: the number, optionally the code, unexpired and unverified. */
  predicate Matches(r: OtpRecord, mobileNumber: string, code: Option<string>, now: int)
  {
    r.mobileNumber == mobileNumber && Live(r, now) && (code.Some? ==> r.otp == code.value)
  }

  /** `findOne`: the position of the first record matching the filter, if any. */
  function FindOne(records: seq<OtpRecord>, mobileNumber: string, code: Option<string>, now: int): (found: Option<nat>)
    ensures found.Some? ==>
      && found.value < |records|
      && Matches(records[found.value], mobileNumber, code, now)
      && forall j :: 0 <= j < found.value ==> !Matches(records[j], mobileNumber, code, now)
    ensures found.None? ==> forall j :: 0 <= j < |records| ==> !Matches(records[j], mobileNumber, code, now)
  {
    if records == [] then None
    else if Matches(records[0], mobileNumber, code, now) then Some(0)
    else
      match FindOne(records[1..], mobileNumber, code, now)
      case None => None
      case Some(k) => Some(k + 1)
  }

  /** `deleteMany({ mobileNumber })`: the records of other numbers, in order. */
  function WithoutNumber(records: seq<OtpRecord>, mobileNumber: string): (kept: seq<OtpRecord>)
    ensures forall r :: r in kept <==> r in records && r.mobileNumber != mobileNumber
  {
    if records == [] then []
    else if records[0].mobileNumber == mobileNumber then WithoutNumber(records[1..], mobileNumber)
    else [records[0]] + WithoutNumber(records[1..], mobileNumber)
  }

  /** `deleteOne({ _id: id })`: the records with another id, in order. */
  function WithoutId(records: seq<OtpRecord>, id: nat): (kept: seq<OtpRecord>)
    ensures forall r :: r in kept <==> r in records && r.id != id
  {
    if records == [] then []
    else if records[0].id == id then WithoutId(records[1..], id)
    else [records[0]] + WithoutId(records[1..], id)
  }

  predicate UniqueIds(records: seq<OtpRecord>)
  {
    forall i, j :: 0 <= i < j < |records| ==> records[i].id != records[j].id
  }

  /** Deleting a record just created, whose id no other record has, restores the table. */
  lemma {:induction false} DeleteCreatedRestores(records: seq<OtpRecord>, created: OtpRecord)
    requires forall r :: r in records ==> r.id != created.id
    ensures WithoutId(records + [created], created.id) == records
  {
    if records != [] {
      assert (records + [created])[1..] == records[1..] + [created];
      DeleteCreatedRestores(records[1..], created);
    } else {
      assert WithoutId([created][1..], created.id) == [];
    }
  }

  /** Deleting by a unique id removes exactly the record at that position. */
  lemma {:induction false} DeleteUniqueAt(records: seq<OtpRecord>, i: nat)
    requires UniqueIds(records) && i < |records|
    ensures WithoutId(records, records[i].id) == records[..i] + records[i + 1..]
  {
    var id := records[i].id;
    var tail := records[1..];
    UniqueTail(records);
    if i == 0 {
      DeleteAbsentId(tail, id);
      assert records[..0] + records[1..] == tail;
    } else {
      assert tail[i - 1] == records[i];
      DeleteUniqueAt(tail, i - 1);
      assert WithoutId(records, id) == [records[0]] + WithoutId(tail, id);
      SpliceFront(records, i);
    }
  }

  /** Removing position `i > 0` keeps the first record in front of the tail with position `i - 1` removed. */
  lemma SpliceFront(records: seq<OtpRecord>, i: nat)
    requires 0 < i < |records|
    ensures records[..i] + records[i + 1..] == [records[0]] + (records[1..][..i - 1] + records[1..][i..])
  {
    assert records[..i] == [records[0]] + records[1..][..i - 1];
    assert records[i + 1..] == records[1..][i..];
  }

  /** The records after the first of a table with unique ids have unique ids, none of them the first's. */
  lemma UniqueTail(records: seq<OtpRecord>)
    requires UniqueIds(records) && records != []
    ensures UniqueIds(records[1..])
    ensures forall r :: r in records[1..] ==> r.id != records[0].id
  {
  }

  lemma {:induction false} DeleteAbsentId(records: seq<OtpRecord>, id: nat)
    requires forall r :: r in records ==> r.id != id
    ensures WithoutId(records, id) == records
  {
    if records != [] {
      DeleteAbsentId(records[1..], id);
    }
  }

  /** At any time, each number has at most one unverified, unexpired record. */
  predicate AtMostOneLive(records: seq<OtpRecord>, now: int)
  {
    forall i, j :: 0 <= i < j < |records| && records[i].mobileNumber == records[j].mobileNumber ==>
      !(Live(records[i], now) && Live(records[j], now))
  }

  /** A record expired at one time stays expired later, so the property carries forward in time. */
  lemma AtMostOneLiveLater(records: seq<OtpRecord>, now: int, later: int)
    requires AtMostOneLive(records, now) && now <= later
    ensures AtMostOneLive(records, later)
  {
  }

  /** When the property holds, `findOne` with a number and a code has at most one candidate. */
  lemma FindOneIsForced(records: seq<OtpRecord>, mobileNumber: string, code: Option<string>, now: int, i: nat)
    requires AtMostOneLive(records, now)
    requires i < |records| && Matches(records[i], mobileNumber, code, now)
    ensures FindOne(records, mobileNumber, code, now) == Some(i)
  {
  }

  /** `deleteMany({ mobileNumber })` keeps the property, since it only drops records. */
  lemma {:induction false} WithoutNumberKeepsAtMostOneLive(records: seq<OtpRecord>, mobileNumber: string, now: int)
    requires AtMostOneLive(records, now)
    ensures AtMostOneLive(WithoutNumber(records, mobileNumber), now)
  {
    if records != [] {
      var first, rest := records[0], records[1..];
      AtMostOneLiveTail(records, now);
      WithoutNumberKeepsAtMostOneLive(rest, mobileNumber, now);
      if first.mobileNumber != mobileNumber {
        var keptRest := WithoutNumber(rest, mobileNumber);
        forall r | r in keptRest && r.mobileNumber == first.mobileNumber
          ensures !(Live(first, now) && Live(r, now))
        {
          var k :| 0 <= k < |rest| && rest[k] == r;
          assert records[k + 1] == r;
        }
        AtMostOneLiveCons(first, keptRest, now);
      }
    }
  }

  lemma AtMostOneLiveTail(records: seq<OtpRecord>, now: int)
    requires records != [] && AtMostOneLive(records, now)
    ensures AtMostOneLive(records[1..], now)
  {
    var rest := records[1..];
    forall a, b | 0 <= a < b < |rest| && rest[a].mobileNumber == rest[b].mobileNumber
      ensures !(Live(rest[a], now) && Live(rest[b], now))
    {
      assert rest[a] == records[a + 1] && rest[b] == records[b + 1];
    }
  }

  lemma AtMostOneLiveCons(first: OtpRecord, rest: seq<OtpRecord>, now: int)
    requires AtMostOneLive(rest, now)
    requires forall r :: r in rest && r.mobileNumber == first.mobileNumber ==> !(Live(first, now) && Live(r, now))
    ensures AtMostOneLive([first] + rest, now)
  {
    var rs := [first] + rest;
    forall a, b | 0 <= a < b < |rs| && rs[a].mobileNumber == rs[b].mobileNumber
      ensures !(Live(rs[a], now) && Live(rs[b], now))
    {
      assert rs[b] == rest[b - 1];
      if a > 0 {
        assert rs[a] == rest[a - 1];
      }
    }
  }

  /** Appending a live record for a number without a live record keeps the property. */
  lemma CreateKeepsAtMostOneLive(records: seq<OtpRecord>, created: OtpRecord, now: int)
    requires AtMostOneLive(records, now)
    requires FindOne(records, created.mobileNumber, None, now).None?
    ensures AtMostOneLive(records + [created], now)
  {
    var rs := records + [created];
    forall i, j | 0 <= i < j < |rs| && rs[i].mobileNumber == rs[j].mobileNumber
      ensures !(Live(rs[i], now) && Live(rs[j], now))
    {
      if j == |records| {
        assert !Matches(records[i], created.mobileNumber, None, now);
      } else {
        assert rs[i] == records[i] && rs[j] == records[j];
      }
    }
  }

  /** The OTP collection. */
  class OtpTable {
    var records: seq<OtpRecord>
    /** The next `_id` the database hands out. */
    var nextId: nat

    ghost predicate Valid()
      reads this
    {
      UniqueIds(records) && forall r :: r in records ==> r.id < nextId
    }

    constructor ()
      ensures Valid() && records == []
    {
      records := [];
      nextId := 0;
    }

    /** `OTP.create({ mobileNumber, otp })` with the schema defaults: unverified, expiring two minutes from now. */
    method Create(mobileNumber: string, otp: string, now: int) returns (created: OtpRecord)
      requires Valid()
      modifies this
      ensures Valid()
      ensures created == OtpRecord(old(nextId), mobileNumber, otp, false, now + STORED_TTL_MS)
      ensures records == old(records) + [created]
      ensures forall r :: r in old(records) ==> r.id != created.id
    {
      created := OtpRecord(nextId, mobileNumber, otp, false, now + STORED_TTL_MS);
      records := records + [created];
      nextId := nextId + 1;
    }

    /** `OTP.deleteOne({ _id })` */
    method DeleteOne(id: nat)
      requires Valid()
      modifies this`records
      ensures Valid()
      ensures records == WithoutId(old(records), id)
    {
      records := WithoutId(records, id);
      assert UniqueIds(records) by {
        WithoutIdKeepsUnique(old(records), id);
      }
    }

    /**
      `generateOtp`: 400 without a number; 429, creating nothing, while the number has a live
      record; otherwise one new unverified six-digit record expiring two minutes from now,
      which is deleted again with a 500 when the production SMS cannot be sent.
    */
    method GenerateOtp(mobileNumber: Option<string>, now: int, draws: seq<Helpers.DigitIndex>,
                       production: bool, smsDelivered: bool)
      returns (reply: Reply)
      requires Valid()
      requires OTP_LENGTH <= |draws|
      modifies this
      ensures Valid()
      ensures !Truthy(mobileNumber) ==> reply == Failure(400, MOBILE_REQUIRED) && records == old(records)
      ensures Truthy(mobileNumber) && FindOne(old(records), mobileNumber.value, None, now).Some? ==>
        reply == Failure(429, WAIT_BEFORE_RETRY) && records == old(records)
      ensures Truthy(mobileNumber) && FindOne(old(records), mobileNumber.value, None, now).None? && production && !smsDelivered ==>
        reply == Failure(500, SEND_FAILED) && records == old(records)
      ensures reply.OtpSent? <==>
        Truthy(mobileNumber) && FindOne(old(records), mobileNumber.value, None, now).None? && (!production || smsDelivered)
      ensures reply.OtpSent? ==>
        && |reply.otp| == OTP_LENGTH
        && (forall i :: 0 <= i < |reply.otp| ==> Helpers.IsDigit(reply.otp[i]))
        && reply.expiresAt == now + REPORTED_TTL_MS
        && records == old(records) + [OtpRecord(old(nextId), mobileNumber.value, reply.otp, false, now + STORED_TTL_MS)]
      ensures AtMostOneLive(old(records), now) ==> AtMostOneLive(records, now)
    {
      if !Truthy(mobileNumber) {
        return Failure(400, MOBILE_REQUIRED);
      }
      var number := mobileNumber.value;
      var recentOtp := FindOne(records, number, None, now);
      if recentOtp.Some? {
        return Failure(429, WAIT_BEFORE_RETRY);
      }
      var otp := Helpers.GenerateOtpNumber(draws, OTP_LENGTH);
      var expiresAt := now + REPORTED_TTL_MS;
      ghost var before := records;
      var otpRecord := Create(number, otp, now);
      if AtMostOneLive(before, now) {
        CreateKeepsAtMostOneLive(before, otpRecord, now);
      }
      if production && !smsDelivered {
        DeleteOne(otpRecord.id);
        DeleteCreatedRestores(before, otpRecord);
        return Failure(500, SEND_FAILED);
      }
      reply := OtpSent(otp, expiresAt);
    }

    /**
      `resendOtp`: 400 without a number; otherwise every record of the number is deleted and one
      new record created, so the number has exactly that one record; when the production SMS
      cannot be sent that record is deleted again (the older ones stay deleted) with a 500.
    */
    method ResendOtp(mobileNumber: Option<string>, now: int, draws: seq<Helpers.DigitIndex>,
                     production: bool, smsDelivered: bool)
      returns (reply: Reply)
      requires Valid()
      requires OTP_LENGTH <= |draws|
      modifies this
      ensures Valid()
      ensures !Truthy(mobileNumber) ==> reply == Failure(400, MOBILE_REQUIRED) && records == old(records)
      ensures Truthy(mobileNumber) && production && !smsDelivered ==>
        reply == Failure(500, SEND_FAILED) && records == WithoutNumber(old(records), mobileNumber.value)
      ensures reply.OtpSent? <==> Truthy(mobileNumber) && (!production || smsDelivered)
      ensures reply.OtpSent? ==>
        && |reply.otp| == OTP_LENGTH
        && (forall i :: 0 <= i < |reply.otp| ==> Helpers.IsDigit(reply.otp[i]))
        && reply.expiresAt == now + REPORTED_TTL_MS
        && records == WithoutNumber(old(records), mobileNumber.value) +
                      [OtpRecord(old(nextId), mobileNumber.value, reply.otp, false, now + STORED_TTL_MS)]
        && (forall r :: r in records && r.mobileNumber == mobileNumber.value ==> r == records[|records| - 1])
      ensures AtMostOneLive(old(records), now) ==> AtMostOneLive(records, now)
    {
      if !Truthy(mobileNumber) {
        return Failure(400, MOBILE_REQUIRED);
      }
      var number := mobileNumber.value;
      records := WithoutNumber(records, number);
      assert Valid() by {
        WithoutNumberKeepsUnique(old(records), number);
      }
      var otp := Helpers.GenerateOtpNumber(draws, OTP_LENGTH);
      var expiresAt := now + REPORTED_TTL_MS;
      ghost var cleared := records;
      if AtMostOneLive(old(records), now) {
        WithoutNumberKeepsAtMostOneLive(old(records), number, now);
      }
      var otpRecord := Create(number, otp, now);
      if AtMostOneLive(cleared, now) {
        assert FindOne(cleared, number, None, now).None?;
        CreateKeepsAtMostOneLive(cleared, otpRecord, now);
      }
      if production && !smsDelivered {
        DeleteOne(otpRecord.id);
        DeleteCreatedRestores(cleared, otpRecord);
        return Failure(500, SEND_FAILED);
      }
      reply := OtpSent(otp, expiresAt);
    }

    /**
      `verifyOtp`: 400 without number or code, and 400 when no live record carries that number
      and code; otherwise the first such record is marked verified. For a number without a user
      the record is kept and the answer says the user is new; for an existing user the record is
      deleted once the login tokens are issued (if issuing them fails, the verified record stays
      and the answer is a 500).
    */
    method VerifyOtp(mobileNumber: Option<string>, otp: Option<string>, now: int, userExists: bool, tokensIssued: bool)
      returns (reply: Reply)
      requires Valid()
      modifies this`records
      ensures Valid()
      ensures !Truthy(mobileNumber) || !Truthy(otp) ==> reply == Failure(400, MOBILE_AND_OTP_REQUIRED) && records == old(records)
      ensures Truthy(mobileNumber) && Truthy(otp) && FindOne(old(records), mobileNumber.value, otp, now).None? ==>
        reply == Failure(400, INVALID_OR_EXPIRED) && records == old(records)
      ensures Truthy(mobileNumber) && Truthy(otp) && FindOne(old(records), mobileNumber.value, otp, now).Some? ==>
        var i := FindOne(old(records), mobileNumber.value, otp, now).value;
        && (!userExists ==>
              reply == NewUserVerified(mobileNumber.value) &&
              records == old(records)[i := old(records)[i].(isVerified := true)])
        && (userExists && tokensIssued ==>
              reply == UserLoggedIn(mobileNumber.value) &&
              records == old(records)[..i] + old(records)[i + 1..])
        && (userExists && !tokensIssued ==>
              reply == Failure(500, TOKENS_FAILED) &&
              records == old(records)[i := old(records)[i].(isVerified := true)])
      ensures AtMostOneLive(old(records), now) ==> AtMostOneLive(records, now)
    {
      if !Truthy(mobileNumber) || !Truthy(otp) {
        return Failure(400, MOBILE_AND_OTP_REQUIRED);
      }
      var number := mobileNumber.value;
      var found := FindOne(records, number, otp, now);
      if found.None? {
        return Failure(400, INVALID_OR_EXPIRED);
      }
      var i := found.value;
      var otpRecord := records[i].(isVerified := true);
      ghost var before := records;
      records := records[i := otpRecord];
      MarkVerifiedKeeps(before, i, now, nextId);
      if !userExists {
        return NewUserVerified(number);
      }
      if !tokensIssued {
        return Failure(500, TOKENS_FAILED);
      }
      ghost var marked := records;
      DeleteOne(otpRecord.id);
      DeleteUniqueAt(marked, i);
      RemoveAtKeeps(before, marked, i, now);
      reply := UserLoggedIn(number);
    }
  }

  /** Marking one record verified keeps the ids, and can only remove a live record. */
  lemma MarkVerifiedKeeps(records: seq<OtpRecord>, i: nat, now: int, nextId: nat)
    requires i < |records|
    ensures var marked := records[i := records[i].(isVerified := true)];
      && (UniqueIds(records) ==> UniqueIds(marked))
      && ((forall r :: r in records ==> r.id < nextId) ==> forall r :: r in marked ==> r.id < nextId)
      && (AtMostOneLive(records, now) ==> AtMostOneLive(marked, now))
  {
    var marked := records[i := records[i].(isVerified := true)];
    assert forall k :: 0 <= k < |marked| ==> marked[k].id == records[k].id;
    assert forall r :: r in marked ==> r in records || r == records[i].(isVerified := true);
  }

  /** Removing the record at `i` of a table that agrees with `records` elsewhere keeps at most one live record per number. */
  lemma RemoveAtKeeps(records: seq<OtpRecord>, marked: seq<OtpRecord>, i: nat, now: int)
    requires i < |records| == |marked|
    requires forall k :: 0 <= k < |records| && k != i ==> marked[k] == records[k]
    ensures marked[..i] + marked[i + 1..] == records[..i] + records[i + 1..]
    ensures AtMostOneLive(records, now) ==> AtMostOneLive(records[..i] + records[i + 1..], now)
  {
    assert marked[..i] == records[..i];
    assert marked[i + 1..] == records[i + 1..];
    var rest := records[..i] + records[i + 1..];
    if AtMostOneLive(records, now) {
      forall a, b | 0 <= a < b < |rest| && rest[a].mobileNumber == rest[b].mobileNumber
        ensures !(Live(rest[a], now) && Live(rest[b], now))
      {
        var a' := if a < i then a else a + 1;
        var b' := if b < i then b else b + 1;
        assert rest[a] == records[a'] && rest[b] == records[b'];
      }
    }
  }

  lemma {:induction false} WithoutIdKeepsUnique(records: seq<OtpRecord>, id: nat)
    requires UniqueIds(records)
    ensures UniqueIds(WithoutId(records, id))
  {
    if records != [] {
      WithoutIdKeepsUnique(records[1..], id);
      assert forall r :: r in WithoutId(records[1..], id) ==> r in records[1..];
    }
  }

  lemma {:induction false} WithoutNumberKeepsUnique(records: seq<OtpRecord>, mobileNumber: string)
    requires UniqueIds(records)
    ensures UniqueIds(WithoutNumber(records, mobileNumber))
  {
    if records != [] {
      WithoutNumberKeepsUnique(records[1..], mobileNumber);
      assert forall r :: r in WithoutNumber(records[1..], mobileNumber) ==> r in records[1..];
    }
  }
}
