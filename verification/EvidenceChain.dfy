/** The hash chain of evidence records of a request: storing, verifying, and what a valid chain pins down. */
module EvidenceChain {
  import opened Wrappers
  import opened Seqs

  /** The part of a record that its hash covers; the content is its serialized text. */
  datatype Fields = Fields(
    requestId: string, recordType: string, content: string, previousHash: Option<string>, createdBy: string)

  datatype Record = Record(id: string, fields: Fields, hash: string)

  /** SHA-256 over the serialized fields, as a hexadecimal string. */
  type Digest = Fields -> string

  /** No two field lists collide, and no digest is empty. */
  ghost predicate CollisionFree(digest: Digest) {
    && (forall a, b :: digest(a) == digest(b) ==> a == b)
    && (forall a :: digest(a) != "")
  }

  // ------------------------------------------------------------ verification

  datatype ChainError =
    | NoRecords
    | HashMismatch(id: string, expected: string, got: string)
    | ChainBreak(id: string, previousHash: Option<string>, expected: string)

  ghost predicate HashMatches(digest: Digest, records: seq<Record>, i: nat)
    requires i < |records|
  {
    records[i].hash == digest(records[i].fields)
  }

  ghost predicate LinkMatches(records: seq<Record>, i: nat)
    requires 0 < i < |records|
  {
    records[i].fields.previousHash == Some(records[i - 1].hash)
  }

  ghost predicate Verifies(digest: Digest, records: seq<Record>) {
    && records != []
    && (forall i | 0 <= i < |records| :: HashMatches(digest, records, i))
    && (forall i | 0 < i < |records| :: LinkMatches(records, i))
  }

  /** The errors found at record i. */
  function ErrorsAt(digest: Digest, records: seq<Record>, i: nat): seq<ChainError>
    requires i < |records|
  {
    var record := records[i];
    var expected := digest(record.fields);
    (if record.hash != expected then [HashMismatch(record.id, expected, record.hash)] else []) +
    (if i > 0 && record.fields.previousHash != Some(records[i - 1].hash)
     then [ChainBreak(record.id, record.fields.previousHash, records[i - 1].hash)] else [])
  }

  function Errors(digest: Digest, records: seq<Record>, n: nat): seq<ChainError>
    requires n <= |records|
  {
    if n == 0 then [] else Errors(digest, records, n - 1) + ErrorsAt(digest, records, n - 1)
  }

  /** The error tells that record i has another hash than its fields, or does not name that of the one before. */
  ghost predicate Concerns(digest: Digest, records: seq<Record>, i: nat, e: ChainError)
    requires i < |records|
  {
    var r, expected := records[i], digest(records[i].fields);
    || (r.hash != expected && e == HashMismatch(r.id, expected, r.hash))
    || (i > 0 && r.fields.previousHash != Some(records[i - 1].hash) &&
        e == ChainBreak(r.id, r.fields.previousHash, records[i - 1].hash))
  }

  lemma ErrorsAtAre(digest: Digest, records: seq<Record>, i: nat, e: ChainError)
    requires i < |records|
    ensures e in ErrorsAt(digest, records, i) <==> Concerns(digest, records, i, e)
  {
  }

  /** What is reported are exactly the mismatches and the breaks. */
  lemma {:induction false} ErrorsAre(digest: Digest, records: seq<Record>, n: nat, e: ChainError)
    requires n <= |records|
    ensures e in Errors(digest, records, n) <==> exists i | 0 <= i < n :: Concerns(digest, records, i, e)
  {
    if n == 0 {
    } else {
      ErrorsAre(digest, records, n - 1, e);
      ErrorsAtAre(digest, records, n - 1, e);
    }
  }

  /** Reports every mismatch and every break in order, and accepts exactly the chains without any. */
  method VerifyEvidenceChain(digest: Digest, records: seq<Record>) returns (isValid: bool, errors: seq<ChainError>)
    ensures isValid <==> Verifies(digest, records)
    ensures errors == if records == [] then [NoRecords] else Errors(digest, records, |records|)
  {
    if records == [] {
      return false, [NoRecords];
    }
    errors := [];
    for i := 0 to |records|
      invariant errors == Errors(digest, records, i)
      invariant errors == [] <==> (forall j | 0 <= j < i :: HashMatches(digest, records, j))
                                  && (forall j | 0 < j < i :: LinkMatches(records, j))
    {
      var record := records[i];
      var expectedHash := digest(record.fields);
      ghost var before := errors;
      if record.hash != expectedHash {
        errors := errors + [HashMismatch(record.id, expectedHash, record.hash)];
      }
      if i > 0 {
        var prevRecord := records[i - 1];
        if record.fields.previousHash != Some(prevRecord.hash) {
          errors := errors + [ChainBreak(record.id, record.fields.previousHash, prevRecord.hash)];
        }
      }
      assert errors == before + ErrorsAt(digest, records, i);
      assert ErrorsAt(digest, records, i) == [] <==>
             HashMatches(digest, records, i) && (i > 0 ==> LinkMatches(records, i));
    }
    isValid := errors == [];
  }

  // ------------------------------------------------------------ what the last hash pins down

  datatype Sealed = Sealed(fields: Fields, hash: string)

  /** Everything the chain protects: all but the record ids. */
  function Seal(records: seq<Record>): seq<Sealed> {
    Map((r: Record) => Sealed(r.fields, r.hash), records)
  }

  function LastHash(records: seq<Record>): string
    requires records != []
  {
    records[|records| - 1].hash
  }

  lemma {:induction false} SameEndSameHistory(digest: Digest, a: seq<Record>, b: seq<Record>)
    requires CollisionFree(digest) && Verifies(digest, a) && Verifies(digest, b)
    requires |b| <= |a| && LastHash(a) == LastHash(b)
    ensures Seal(b) == Seal(a)[|a| - |b|..]
  {
    var x, y := a[|a| - 1], b[|b| - 1];
    assert HashMatches(digest, a, |a| - 1) && HashMatches(digest, b, |b| - 1);
    assert x.fields == y.fields;
    if |b| > 1 {
      assert LinkMatches(a, |a| - 1) && LinkMatches(b, |b| - 1);
      var a', b' := a[..|a| - 1], b[..|b| - 1];
      PrefixVerifies(digest, a);
      PrefixVerifies(digest, b);
      SameEndSameHistory(digest, a', b');
      assert Seal(a) == Seal(a') + Seal([x]);
      assert Seal(b) == Seal(b') + Seal([y]);
    }
  }

  lemma PrefixVerifies(digest: Digest, a: seq<Record>)
    requires Verifies(digest, a) && |a| > 1
    ensures Verifies(digest, a[..|a| - 1])
  {
    var a' := a[..|a| - 1];
    forall i | 0 <= i < |a'|
      ensures HashMatches(digest, a', i)
      ensures i > 0 ==> LinkMatches(a', i)
    {
      assert HashMatches(digest, a, i) && (i > 0 ==> LinkMatches(a, i));
    }
  }

  /**
   A valid chain fixes everything that a chain with the same last hash may contain: another chain
   that is no longer verifies and ends in that hash exactly when it is the end of this one.
   In particular an edit anywhere is reported, and dropping records from the front is not.
   */
  lemma LastHashPinsHistory(digest: Digest, a: seq<Record>, b: seq<Record>)
    requires CollisionFree(digest) && Verifies(digest, a)
    requires b != [] && |b| <= |a|
    ensures Verifies(digest, b) && LastHash(b) == LastHash(a) <==> Seal(b) == Seal(a)[|a| - |b|..]
  {
    if Verifies(digest, b) && LastHash(b) == LastHash(a) {
      SameEndSameHistory(digest, a, b);
    }
    if Seal(b) == Seal(a)[|a| - |b|..] {
      var d := |a| - |b|;
      forall i | 0 <= i < |b|
        ensures b[i].fields == a[d + i].fields && b[i].hash == a[d + i].hash
      {
        assert Seal(b)[i] == Seal(a)[d..][i];
        assert Seal(a)[d + i] == Sealed(a[d + i].fields, a[d + i].hash);
      }
      forall i | 0 <= i < |b|
        ensures HashMatches(digest, b, i)
        ensures i > 0 ==> LinkMatches(b, i)
      {
        assert HashMatches(digest, a, d + i);
        assert i > 0 ==> LinkMatches(a, d + i);
      }
    }
  }

  /** Editing a stored chain without touching its last hash is caught, unless only ids changed. */
  lemma EditsAreReported(digest: Digest, a: seq<Record>, b: seq<Record>)
    requires CollisionFree(digest) && Verifies(digest, a)
    requires |a| == |b| && LastHash(a) == LastHash(b)
    ensures Verifies(digest, b) <==> Seal(a) == Seal(b)
  {
    LastHashPinsHistory(digest, a, b);
    assert Seal(a)[0..] == Seal(a);
  }

  /** One more record keeps a chain valid exactly when it is hashed right and linked to the last hash. */
  lemma AppendVerifies(digest: Digest, a: seq<Record>, r: Record)
    requires a == [] || Verifies(digest, a)
    ensures Verifies(digest, a + [r]) <==>
            r.hash == digest(r.fields) && (a != [] ==> r.fields.previousHash == Some(LastHash(a)))
  {
    var b := a + [r];
    forall i | 0 <= i < |a|
      ensures HashMatches(digest, b, i)
      ensures i > 0 ==> LinkMatches(b, i)
    {
      assert HashMatches(digest, a, i) && (i > 0 ==> LinkMatches(a, i));
    }
    if Verifies(digest, b) {
      assert HashMatches(digest, b, |a|);
      assert a != [] ==> LinkMatches(b, |a|);
    }
  }

  // ------------------------------------------------------------ storing

  /** A record offered for storage; the caller may leave the hash out. */
  datatype Offer = Offer(fields: Fields, hash: Option<string>)

  /** The hash that is stored, or nothing when the offer is refused. */
  function StoredHash(digest: Digest, offer: Offer): Option<string> {
    if offer.hash.Some? && offer.hash.value != "" && offer.hash.value != digest(offer.fields) then None
    else Some(offer.hash.GetOr(digest(offer.fields)))
  }

  function ForRequest(requestId: string): Record -> bool {
    (r: Record) => r.fields.requestId == requestId
  }

  /** The records of a request, oldest first. */
  function Chain(rows: seq<Record>, requestId: string): seq<Record> {
    Filter(ForRequest(requestId), rows)
  }

  class EvidenceStore {
    const digest: Digest
    /** The evidence table in order of creation. */
    var rows: seq<Record>

    constructor (digest: Digest)
      ensures this.digest == digest && rows == []
    {
      this.digest, rows := digest, [];
    }

    method StoreEvidenceRecord(id: string, offer: Offer) returns (ok: bool)
      modifies this`rows
      ensures rows == Stored(digest, old(rows), id, offer)
      ensures ok <==> offer.hash.None? || offer.hash.value in {"", digest(offer.fields)}
      ensures !ok ==> rows == old(rows)
      ensures ok ==> rows == old(rows) + [Record(id, offer.fields, offer.hash.GetOr(digest(offer.fields)))]
    {
      var expectedHash := digest(offer.fields);
      if offer.hash.Some? && offer.hash.value != "" && offer.hash.value != expectedHash {
        return false;
      }
      var finalHash := if offer.hash.Some? then offer.hash.value else expectedHash;
      rows := rows + [Record(id, offer.fields, finalHash)];
      return true;
    }
  }

  function Stored(digest: Digest, rows: seq<Record>, id: string, offer: Offer): seq<Record> {
    match StoredHash(digest, offer)
    case None => rows
    case Some(hash) => rows + [Record(id, offer.fields, hash)]
  }

  /** The offer carries no hash, an empty one, or the digest of its fields. */
  ghost predicate Acceptable(digest: Digest, offer: Offer) {
    offer.hash.None? || offer.hash.value in {"", digest(offer.fields)}
  }

  /** An offer that is not acceptable changes nothing; any other adds one row with the hash it carries, if any. */
  lemma StoredIs(digest: Digest, rows: seq<Record>, id: string, offer: Offer)
    ensures Stored(digest, rows, id, offer) == rows +
            if Acceptable(digest, offer)
            then [Record(id, offer.fields, if offer.hash.Some? then offer.hash.value else digest(offer.fields))]
            else []
  {
    assert rows + [] == rows;
  }

  /** After any run the rows are those of the acceptable offers, in order. */
  lemma {:induction false} RowsAreAccepted(digest: Digest, offers: seq<(string, Offer)>)
    ensures Run(digest, offers) ==
            Map((o: (string, Offer)) =>
                  Record(o.0, o.1.fields, if o.1.hash.Some? then o.1.hash.value else digest(o.1.fields)),
                Filter((o: (string, Offer)) => o.1.hash.None? || o.1.hash.value in {"", digest(o.1.fields)}, offers))
  {
    if offers == [] {
    } else {
      var before, last := offers[..|offers| - 1], offers[|offers| - 1];
      var accepted := (o: (string, Offer)) => o.1.hash.None? || o.1.hash.value in {"", digest(o.1.fields)};
      var row := (o: (string, Offer)) =>
        Record(o.0, o.1.fields, if o.1.hash.Some? then o.1.hash.value else digest(o.1.fields));
      RowsAreAccepted(digest, before);
      StoredIs(digest, Run(digest, before), last.0, last.1);
      assert offers == before + [last];
      FilterAppend(accepted, before, [last]);
      MapAppend(row, Filter(accepted, before), Filter(accepted, [last]));
      assert Map(row, [last]) == [row(last)];
    }
  }

  /** The offer names the last stored hash of its request, if there is one. */
  ghost predicate Linked(rows: seq<Record>, offer: Offer) {
    var chain := Filter((r: Record) => r.fields.requestId == offer.fields.requestId, rows);
    chain != [] ==> offer.fields.previousHash == Some(LastHash(chain))
  }

  ghost predicate ChainValid(digest: Digest, rows: seq<Record>, requestId: string) {
    Chain(rows, requestId) == [] || Verifies(digest, Chain(rows, requestId))
  }

  /** The rows of a request are those with its id, in order. */
  lemma ChainIs(rows: seq<Record>, requestId: string)
    ensures Chain(rows, requestId) == Filter((r: Record) => r.fields.requestId == requestId, rows)
  {
    FilterAgree(ForRequest(requestId), (r: Record) => r.fields.requestId == requestId, rows);
  }

  /** The offer is refused, or it is linked and does not carry the empty string as its hash. */
  ghost predicate Harmless(digest: Digest, rows: seq<Record>, offer: Offer) {
    !Acceptable(digest, offer) || (Linked(rows, offer) && offer.hash != Some(""))
  }

  /**
   Storing an offer, be it the first of its request, keeps the request's chain valid exactly when it
   is refused, or is linked and does not carry the empty string as its hash: that one slips past the
   integrity check.
   */
  lemma StoreVerifies(digest: Digest, rows: seq<Record>, id: string, offer: Offer)
    requires CollisionFree(digest)
    requires ChainValid(digest, rows, offer.fields.requestId)
    ensures ChainValid(digest, Stored(digest, rows, id, offer), offer.fields.requestId) <==>
            Harmless(digest, rows, offer)
  {
    ChainIs(rows, offer.fields.requestId);
    if StoredHash(digest, offer).Some? {
      StoredChain(digest, rows, id, offer);
      AppendVerifies(digest, Chain(rows, offer.fields.requestId),
                     Record(id, offer.fields, StoredHash(digest, offer).value));
    }
  }

  lemma StoredChain(digest: Digest, rows: seq<Record>, id: string, offer: Offer)
    requires StoredHash(digest, offer).Some?
    ensures var row := Record(id, offer.fields, StoredHash(digest, offer).value);
            forall requestId :: Chain(Stored(digest, rows, id, offer), requestId) ==
              Chain(rows, requestId) + if requestId == offer.fields.requestId then [row] else []
  {
    var row := Record(id, offer.fields, StoredHash(digest, offer).value);
    forall requestId
      ensures Chain(rows + [row], requestId) ==
              Chain(rows, requestId) + if requestId == offer.fields.requestId then [row] else []
    {
      FilterAppend(ForRequest(requestId), rows, [row]);
    }
  }

  function Run(digest: Digest, offers: seq<(string, Offer)>): seq<Record> {
    if offers == [] then []
    else
      var last := offers[|offers| - 1];
      Stored(digest, Run(digest, offers[..|offers| - 1]), last.0, last.1)
  }

  /** Storing never makes an invalid chain valid. */
  lemma StoreKeepsInvalid(digest: Digest, rows: seq<Record>, id: string, offer: Offer, requestId: string)
    requires ChainValid(digest, Stored(digest, rows, id, offer), requestId)
    ensures ChainValid(digest, rows, requestId)
  {
    if StoredHash(digest, offer).Some? {
      var row := Record(id, offer.fields, StoredHash(digest, offer).value);
      StoredChain(digest, rows, id, offer);
      var before, after := Chain(rows, requestId), Chain(Stored(digest, rows, id, offer), requestId);
      if requestId == offer.fields.requestId {
        assert after == before + [row] && after[..|after| - 1] == before;
        if |after| > 1 {
          PrefixVerifies(digest, after);
        }
      } else {
        assert after == before + [] == before;
      }
    }
  }

  lemma OtherChains(digest: Digest, rows: seq<Record>, id: string, offer: Offer, requestId: string)
    requires requestId != offer.fields.requestId
    ensures Chain(Stored(digest, rows, id, offer), requestId) == Chain(rows, requestId)
  {
    if StoredHash(digest, offer).Some? {
      StoredChain(digest, rows, id, offer);
      assert Chain(rows, requestId) + [] == Chain(rows, requestId);
    }
  }

  ghost predicate AllChainsValid(digest: Digest, rows: seq<Record>) {
    forall requestId :: ChainValid(digest, rows, requestId)
  }

  /** One offer keeps all chains valid exactly when all were and it does no harm. */
  lemma StoreKeepsAll(digest: Digest, rows: seq<Record>, id: string, offer: Offer)
    requires CollisionFree(digest)
    ensures AllChainsValid(digest, Stored(digest, rows, id, offer)) <==>
            AllChainsValid(digest, rows) && Harmless(digest, rows, offer)
  {
    var rows' := Stored(digest, rows, id, offer);
    if AllChainsValid(digest, rows') {
      forall requestId
        ensures ChainValid(digest, rows, requestId)
      {
        StoreKeepsInvalid(digest, rows, id, offer, requestId);
      }
      StoreVerifies(digest, rows, id, offer);
    }
    if AllChainsValid(digest, rows) && Harmless(digest, rows, offer) {
      StoreVerifies(digest, rows, id, offer);
      forall requestId
        ensures ChainValid(digest, rows', requestId)
      {
        assert ChainValid(digest, rows, requestId);
        if requestId != offer.fields.requestId {
          OtherChains(digest, rows, id, offer, requestId);
        }
      }
    }
  }

  ghost predicate HarmlessAt(digest: Digest, offers: seq<(string, Offer)>, i: nat)
    requires i < |offers|
  {
    Harmless(digest, Run(digest, offers[..i]), offers[i].1)
  }

  /**
   After any run of offers the chains of all requests are valid exactly when every offer that was
   accepted was linked and none of them had an empty hash.
   */
  lemma {:induction false} RunVerifiesIffHarmless(digest: Digest, offers: seq<(string, Offer)>)
    requires CollisionFree(digest)
    ensures AllChainsValid(digest, Run(digest, offers)) <==>
            forall i | 0 <= i < |offers| :: HarmlessAt(digest, offers, i)
  {
    if offers == [] {
    } else {
      var before, last := offers[..|offers| - 1], offers[|offers| - 1];
      HarmlessPrefix(digest, offers);
      RunVerifiesIffHarmless(digest, before);
      StoreKeepsAll(digest, Run(digest, before), last.0, last.1);
    }
  }

  lemma HarmlessPrefix(digest: Digest, offers: seq<(string, Offer)>)
    requires offers != []
    ensures var before, last := offers[..|offers| - 1], offers[|offers| - 1];
            (forall i | 0 <= i < |offers| :: HarmlessAt(digest, offers, i)) <==>
            && (forall i | 0 <= i < |before| :: HarmlessAt(digest, before, i))
            && Harmless(digest, Run(digest, before), last.1)
  {
    var before, n := offers[..|offers| - 1], |offers| - 1;
    forall i | 0 <= i < n
      ensures HarmlessAt(digest, before, i) <==> HarmlessAt(digest, offers, i)
    {
      assert before[..i] == offers[..i];
    }
    assert HarmlessAt(digest, offers, n) <==> Harmless(digest, Run(digest, before), offers[n].1);
  }
}
