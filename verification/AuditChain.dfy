/** The audit log of an organization: every event's hash covers its content, its number and its predecessor's hash. */
module AuditChain {
  import opened Decimal
  import opened Digest
  import opened Wrappers
  import opened Sorting
  import opened Json
  import opened JsonParser
  import opened CanonicalJson
  import opened CanonicalEquality
  import opened CanonicalText
  import opened NormalizedSpec
  import opened Strings

  const MAX_METADATA_BYTES := 2_048

  function Zeros(n: nat): string { seq(n, _ => '0') }

  const GENESIS: string := Zeros(64)

  // What an event records; the time in microseconds.
  datatype Details = Details(organization: string, actorKind: string, actorId: string, action: string, resourceType: string,
                             resourceId: string, requestId: Option<string>, occurredAt: int, metadata: Json)

  datatype Event = Event(sequence: nat, details: Details, previousHash: string, hash: string)

  datatype Head = Head(sequence: nat, hash: string)

  // The digest, the canonical UTC timestamp, the metadata keys allowed for an action, and how numbers are read.
  datatype Rules = Rules(digest: string -> string, timestamp: int -> string, allowed: string -> set<string>, valueOf: string -> real)

  // ---------- the hash of one event ----------

  predicate IsLetterOrDigit(c: char) { 'a' <= c <= 'z' || 'A' <= c <= 'Z' || '0' <= c <= '9' }

  predicate IsSafe(s: string, extra: set<char>, limit: nat) {
    && 1 <= |s| <= limit && IsLetterOrDigit(s[0])
    && forall i :: 0 <= i < |s| ==> IsLetterOrDigit(s[i]) || s[i] in extra
  }

  predicate IsSafeCorrelation(s: string) { IsSafe(s, {'.', '_', ':', '-'}, 128) }

  predicate IsSafeActor(s: string) { IsSafe(s, {'@', '.', '_', ':', '/', '+', '-'}, 255) }

  function NormalizeMetadata(rules: Rules, action: string, metadata: Json): Option<Json> {
    if !metadata.Obj? then None
    else if exists i :: 0 <= i < |metadata.fields| && metadata.fields[i].name !in rules.allowed(action) then None
    else if !Printed(metadata, rules.valueOf) || Utf8Size(Encode(metadata)) > MAX_METADATA_BYTES then None
    else Some(Normal(metadata))
  }

  function OptionalText(s: Option<string>): Json { if s.Some? then Str(s.value) else Null }

  function Number(rules: Rules, n: nat): Json { Num(rules.valueOf(Digits(n)), Digits(n)) }

  function Payload(rules: Rules, sequence: nat, d: Details, metadata: Json, previousHash: string): (r: Json)
    ensures r.Obj? && |r.fields| == 11
  {
    Obj([
      Field("action", Str(d.action)),
      Field("actor_id", Str(d.actorId)),
      Field("actor_kind", Str(d.actorKind)),
      Field("metadata", metadata),
      Field("occurred_at", Str(rules.timestamp(d.occurredAt))),
      Field("organization_id", Str(d.organization)),
      Field("previous_hash", Str(previousHash)),
      Field("request_id", OptionalText(d.requestId)),
      Field("resource_id", Str(d.resourceId)),
      Field("resource_type", Str(d.resourceType)),
      Field("sequence", Number(rules, sequence))])
  }

  // None where the program raises.
  function EventHash(rules: Rules, sequence: nat, d: Details, previousHash: string): Option<string> {
    if !IsSafeActor(d.actorId) || (d.requestId.Some? && !IsSafeCorrelation(d.requestId.value)) then None
    else
      match NormalizeMetadata(rules, d.action, d.metadata)
      case None => None
      case Some(metadata) => Some(rules.digest(Encode(Payload(rules, sequence, d, metadata, previousHash))))
  }

  // ---------- the chain ----------

  function PreviousHash(events: seq<Event>, i: nat): string
    requires i <= |events|
  {
    if i == 0 then GENESIS else events[i - 1].hash
  }

  predicate IsLinkedAt(rules: Rules, events: seq<Event>, i: nat)
    requires i < |events|
  {
    && events[i].sequence == i + 1
    && events[i].previousHash == PreviousHash(events, i)
    && EventHash(rules, i + 1, events[i].details, PreviousHash(events, i)) == Some(events[i].hash)
  }

  predicate IsLinked(rules: Rules, events: seq<Event>) { forall i :: 0 <= i < |events| ==> IsLinkedAt(rules, events, i) }

  predicate IsIntact(rules: Rules, events: seq<Event>, head: Head) {
    IsLinked(rules, events) && head == Head(|events|, PreviousHash(events, |events|))
  }

  class AuditLog {
    const rules: Rules
    var events: seq<Event>
    var head: Head

    constructor (rules: Rules)
      ensures this.rules == rules && events == [] && head == Head(0, GENESIS)
      ensures |head.hash| == 64 && forall i :: 0 <= i < 64 ==> head.hash[i] == '0'
      ensures IsIntact(rules, events, head)
    {
      this.rules := rules;
      events, head := [], Head(0, GENESIS);
    }

    /**
     * An event is recorded exactly when its metadata is an object with allowed names and printed numbers within
     * 2048 bytes, the head is a digest, and actor and request are safe. It has the next number, the head's hash
     * before it, the stated details with the metadata in key order, and their hash. An intact log stays intact;
     * a refused event leaves no trace.
     */
    method Append(d: Details) returns (r: Option<Event>)
      modifies this`events, this`head
      ensures r.None? ==> events == old(events) && head == old(head)
      ensures r.Some? ==> events == old(events) + [r.value] && head == Head(old(head).sequence + 1, r.value.hash)
      ensures r.Some? ==>
                && r.value.sequence == old(head).sequence + 1 && r.value.previousHash == old(head).hash
                && r.value.details == d.(metadata := Normal(d.metadata))
                && EventHash(rules, old(head).sequence + 1, r.value.details, old(head).hash) == Some(r.value.hash)
      ensures r.Some? <==>
                && NormalizeMetadata(rules, d.action, d.metadata).Some? && IsHex(old(head).hash, 64)
                && EventHash(rules, old(head).sequence + 1, d.(metadata := Normal(d.metadata)), old(head).hash).Some?
      ensures WellFormed(d.metadata) ==>
                (r.Some? <==>
                   && d.metadata.Obj? && (forall i :: 0 <= i < |d.metadata.fields| ==> d.metadata.fields[i].name in rules.allowed(d.action))
                   && Printed(d.metadata, rules.valueOf) && Utf8Size(Encode(d.metadata)) <= 2_048
                   && IsHex(old(head).hash, 64)
                   && IsSafeActor(d.actorId) && (d.requestId.Some? ==> IsSafeCorrelation(d.requestId.value)))
      ensures r.Some? && IsIntact(rules, old(events), old(head)) ==> IsIntact(rules, events, head)
    {
      MetadataIs(rules, d);
      hide NormalizeMetadata, EventHash, IsHex, IsSafeActor, IsSafeCorrelation, Printed, WellFormed, Normal, Encode, Utf8Size;
      var metadata := NormalizeMetadata(rules, d.action, d.metadata);
      if metadata.None? || !IsHex(head.hash, 64) {
        return None;
      }
      var recorded := d.(metadata := metadata.value);
      if WellFormed(d.metadata) {
        RecordedHashes(rules, head, d);
      }
      var hash := EventHash(rules, head.sequence + 1, recorded, head.hash);
      if hash.None? {
        return None;
      }
      var event := Event(head.sequence + 1, recorded, head.hash, hash.value);
      events := events + [event];
      head := Head(event.sequence, event.hash);
      assert IsIntact(rules, old(events), old(head)) ==>
               (forall i :: 0 <= i < |old(events)| ==> IsLinkedAt(rules, old(events), i)) && IsLinkedAt(rules, events, |old(events)|);
      assert forall i :: 0 <= i < |old(events)| && IsLinkedAt(rules, old(events), i) ==> IsLinkedAt(rules, events, i);
      return Some(event);
    }

    /** Verification answers yes exactly for an intact log; it raises only on an event that cannot be hashed. */
    method Verify() returns (r: Option<bool>)
      ensures r == Some(true) <==> IsIntact(rules, events, head)
      ensures r.None? ==> exists i :: 0 <= i < |events| && EventHash(rules, i + 1, events[i].details, PreviousHash(events, i)).None?
    {
      hide EventHash;
      var previousHash, expected := GENESIS, 1;
      for i := 0 to |events|
        invariant previousHash == PreviousHash(events, i) && expected == i + 1
        invariant forall k :: 0 <= k < i ==> IsLinkedAt(rules, events, k)
      {
        var event := events[i];
        if event.sequence != expected || event.previousHash != previousHash {
          assert !IsLinkedAt(rules, events, i);
          return Some(false);
        }
        var hash := EventHash(rules, event.sequence, event.details, event.previousHash);
        if hash.None? {
          assert !IsLinkedAt(rules, events, i);
          return None;
        }
        if event.hash != hash.value {
          assert !IsLinkedAt(rules, events, i);
          return Some(false);
        }
        previousHash := event.hash;
        expected := expected + 1;
      }
      return Some(head.sequence == expected - 1 && head.hash == previousHash);
    }
  }

  lemma MetadataIs(rules: Rules, d: Details)
    ensures NormalizeMetadata(rules, d.action, d.metadata).Some? <==>
              && d.metadata.Obj? && (forall i :: 0 <= i < |d.metadata.fields| ==> d.metadata.fields[i].name in rules.allowed(d.action))
              && Printed(d.metadata, rules.valueOf) && Utf8Size(Encode(d.metadata)) <= 2_048
    ensures NormalizeMetadata(rules, d.action, d.metadata).Some? ==>
              NormalizeMetadata(rules, d.action, d.metadata).value == Normal(d.metadata)
  {
    hide Printed, Normal, Encode, Utf8Size;
  }

  /** Which actors and requests are safe: letters, digits and a few signs, a letter or a digit first. */
  lemma SafeTexts(s: string)
    ensures IsSafeActor(s) <==>
              && 1 <= |s| <= 255 && s[0] !in "@._:/+-"
              && forall i :: 0 <= i < |s| ==> 'a' <= s[i] <= 'z' || 'A' <= s[i] <= 'Z' || '0' <= s[i] <= '9' || s[i] in "@._:/+-"
    ensures IsSafeCorrelation(s) <==>
              && 1 <= |s| <= 128 && s[0] !in "._:-"
              && forall i :: 0 <= i < |s| ==> 'a' <= s[i] <= 'z' || 'A' <= s[i] <= 'Z' || '0' <= s[i] <= '9' || s[i] in "._:-"
  {
    assert forall c :: c in "@._:/+-" <==> c in {'@', '.', '_', ':', '/', '+', '-'};
    assert forall c :: c in "._:-" <==> c in {'.', '_', ':', '-'};
  }

  // Metadata in canonical form normalizes again, so only the actor and the request can still be refused.
  lemma RecordedHashes(rules: Rules, head: Head, d: Details)
    requires WellFormed(d.metadata) && NormalizeMetadata(rules, d.action, d.metadata).Some?
    ensures EventHash(rules, head.sequence + 1, d.(metadata := NormalizeMetadata(rules, d.action, d.metadata).value), head.hash).Some?
            <==> IsSafeActor(d.actorId) && (d.requestId.Some? ==> IsSafeCorrelation(d.requestId.value))
  {
    hide Encode, Utf8Size, Normal, SortBy, WellFormed, Same, IsSafe, Payload;
    var fields := d.metadata.fields;
    NormalIsSame(d.metadata);
    SameEncodesAlike(Normal(d.metadata), d.metadata);
    PrintedNormal(d.metadata, rules.valueOf);
    EncodeObject(d.metadata);
    var sorted := SortBy(fields, FieldName);
    MultisetMembers(sorted, fields);
    var normal := Normal(d.metadata);
    forall i | 0 <= i < |normal.fields| ensures normal.fields[i].name in rules.allowed(d.action) {
      assert normal.fields[i] == NormalField(sorted[i]) && sorted[i] in fields;
    }
  }

  // ---------- what is hashed ----------

  // The members of the hashed text.
  function EventMembers(rules: Rules, sequence: nat, d: Details, metadata: Json, previousHash: string): (r: seq<string>)
    ensures |r| == 11
  {
    [Labeled("action", Quote(d.action)),
     Labeled("actor_id", Quote(d.actorId)),
     Labeled("actor_kind", Quote(d.actorKind)),
     Labeled("metadata", Encode(metadata)),
     Labeled("occurred_at", Quote(rules.timestamp(d.occurredAt))),
     Labeled("organization_id", Quote(d.organization)),
     Labeled("previous_hash", Quote(previousHash)),
     Labeled("request_id", if d.requestId.Some? then Quote(d.requestId.value) else "null"),
     Labeled("resource_id", Quote(d.resourceId)),
     Labeled("resource_type", Quote(d.resourceType)),
     Labeled("sequence", Digits(sequence))]
  }

  lemma EventMember(rules: Rules, sequence: nat, d: Details, metadata: Json, previousHash: string, i: nat)
    requires i < 11
    ensures LabeledText(Payload(rules, sequence, d, metadata, previousHash).fields[i]) == EventMembers(rules, sequence, d, metadata, previousHash)[i]
  {
    hide Labeled, Quote, Digits;
  }

  lemma PlainPayloadNames()
    ensures IsPlain(PAYLOAD_NAMES[0]) && IsPlain(PAYLOAD_NAMES[1]) && IsPlain(PAYLOAD_NAMES[2]) && IsPlain(PAYLOAD_NAMES[3])
    ensures IsPlain(PAYLOAD_NAMES[4]) && IsPlain(PAYLOAD_NAMES[5])
  {
  }

  lemma OtherPlainPayloadNames()
    ensures IsPlain(PAYLOAD_NAMES[6]) && IsPlain(PAYLOAD_NAMES[7]) && IsPlain(PAYLOAD_NAMES[8])
    ensures IsPlain(PAYLOAD_NAMES[9]) && IsPlain(PAYLOAD_NAMES[10])
  {
  }

  lemma PlainName(i: nat)
    requires i < 11
    ensures |PAYLOAD_NAMES| == 11 && IsPlain(PAYLOAD_NAMES[i])
  {
    PlainPayloadNames();
    OtherPlainPayloadNames();
    hide IsPlain;
  }

  lemma PayloadText(rules: Rules, sequence: nat, d: Details, metadata: Json, previousHash: string)
    ensures Encode(Payload(rules, sequence, d, metadata, previousHash))
            == "{" + Join(EventMembers(rules, sequence, d, metadata, previousHash), ",") + "}"
  {
    hide Payload, EventMembers, LabeledText, Join, Encode, IsPlain, PAYLOAD_NAMES, Less, StepsUp;
    var fields := Payload(rules, sequence, d, metadata, previousHash).fields;
    PayloadNamesAscend();
    StepsAscend(PAYLOAD_NAMES);
    PayloadHasNames(rules, sequence, d, metadata, previousHash);
    forall i: nat | i < 11
      ensures IsPlain(fields[i].name) && LabeledText(fields[i]) == EventMembers(rules, sequence, d, metadata, previousHash)[i]
    {
      PlainName(i);
      EventMember(rules, sequence, d, metadata, previousHash, i);
    }
    ObjectText(fields);
    assert Map(LabeledText, fields) == EventMembers(rules, sequence, d, metadata, previousHash);
  }

  /** The hash of an event is the digest of its eleven members by name, in key order. */
  lemma EventHashCovers(rules: Rules, sequence: nat, d: Details, previousHash: string)
    requires EventHash(rules, sequence, d, previousHash).Some?
    ensures EventHash(rules, sequence, d, previousHash).value
            == rules.digest("{" + Join(EventMembers(rules, sequence, d, Normal(d.metadata), previousHash), ",") + "}")
  {
    MetadataIs(rules, d);
    hide NormalizeMetadata, Payload, EventMembers, Join, Encode, IsSafeActor, IsSafeCorrelation, Normal;
    PayloadText(rules, sequence, d, Normal(d.metadata), previousHash);
  }

  // ---------- the last hash determines the history ----------

  // Everything the hash covers: all fields, the time and the metadata in canonical form.
  predicate SameRecord(rules: Rules, a: Details, b: Details) {
    && a.organization == b.organization && a.actorKind == b.actorKind && a.actorId == b.actorId && a.action == b.action
    && a.resourceType == b.resourceType && a.resourceId == b.resourceId && a.requestId == b.requestId
    && rules.timestamp(a.occurredAt) == rules.timestamp(b.occurredAt)
    && Normal(a.metadata) == Normal(b.metadata)
  }

  lemma {:induction false} NumberIsPrinted(n: nat)
    ensures IsNumberText(Digits(n))
  {
    var s := Digits(n);
    assert s[..|s|] == s && s[0] != '-' by { assert IsDigit(s[0]); }
    assert SplitsAt(s, |s|, |s|);
  }

  lemma PayloadIsWellFormed(rules: Rules, sequence: nat, d: Details, metadata: Json, previousHash: string)
    requires WellFormed(metadata)
    ensures WellFormed(Payload(rules, sequence, d, metadata, previousHash))
  {
    hide Payload, Digits;
    var fields := Payload(rules, sequence, d, metadata, previousHash).fields;
    PayloadNames(rules, sequence, d, metadata, previousHash);
    PayloadValues(rules, sequence, d, metadata, previousHash);
    forall i | 0 <= i < 11 ensures WellFormed(fields[i].value) {
      if i != 3 {
        assert IsPayloadAtom(rules, sequence, fields[i].value);
      }
    }
  }

  lemma PayloadIsPrinted(rules: Rules, sequence: nat, d: Details, metadata: Json, previousHash: string)
    requires Printed(metadata, rules.valueOf)
    ensures Printed(Payload(rules, sequence, d, metadata, previousHash), rules.valueOf)
  {
    hide Payload, Digits, IsNumberText;
    var fields := Payload(rules, sequence, d, metadata, previousHash).fields;
    PayloadValues(rules, sequence, d, metadata, previousHash);
    NumberIsPrinted(sequence);
    forall i | 0 <= i < 11 ensures Printed(fields[i].value, rules.valueOf) {
      if i != 3 {
        assert IsPayloadAtom(rules, sequence, fields[i].value);
      }
    }
  }

  predicate IsPayloadAtom(rules: Rules, sequence: nat, value: Json) { value.Str? || value.Null? || value == Number(rules, sequence) }

  // The values besides the metadata.
  lemma PayloadValues(rules: Rules, sequence: nat, d: Details, metadata: Json, previousHash: string)
    ensures var fields := Payload(rules, sequence, d, metadata, previousHash).fields;
            && fields[3].value == metadata
            && forall i :: 0 <= i < 11 && i != 3 ==> IsPayloadAtom(rules, sequence, fields[i].value)
  {
    hide Number;
  }

  const PAYLOAD_NAMES := ["action", "actor_id", "actor_kind", "metadata", "occurred_at", "organization_id", "previous_hash",
                          "request_id", "resource_id", "resource_type", "sequence"]

  lemma ActorNames()
    ensures Less("action", "actor_id") && Less("actor_id", "actor_kind") && Less("actor_kind", "metadata")
  {
    hide Less;
    LessAt("action", "actor_id", 3);
    LessAt("actor_id", "actor_kind", 6);
    LessAt("actor_kind", "metadata", 0);
  }

  lemma MiddleNames()
    ensures Less("metadata", "occurred_at") && Less("occurred_at", "organization_id") && Less("organization_id", "previous_hash")
    ensures Less("previous_hash", "request_id")
  {
    hide Less;
    LessAt("metadata", "occurred_at", 0);
    LessAt("occurred_at", "organization_id", 1);
    LessAt("organization_id", "previous_hash", 0);
    LessAt("previous_hash", "request_id", 0);
  }

  lemma ResourceNames()
    ensures Less("request_id", "resource_id") && Less("resource_id", "resource_type") && Less("resource_type", "sequence")
  {
    hide Less;
    LessAt("request_id", "resource_id", 2);
    LessAt("resource_id", "resource_type", 9);
    LessAt("resource_type", "sequence", 0);
  }

  lemma PayloadNamesAscend()
    ensures |PAYLOAD_NAMES| == 11 && StepsUp(PAYLOAD_NAMES)
  {
    hide Less;
    ActorNames();
    MiddleNames();
    ResourceNames();
  }

  lemma PayloadHasNames(rules: Rules, sequence: nat, d: Details, metadata: Json, previousHash: string)
    ensures |PAYLOAD_NAMES| == 11
    ensures forall i :: 0 <= i < 11 ==> Payload(rules, sequence, d, metadata, previousHash).fields[i].name == PAYLOAD_NAMES[i]
  {
    hide Digits;
  }

  lemma PayloadNames(rules: Rules, sequence: nat, d: Details, metadata: Json, previousHash: string)
    ensures DistinctNames(Payload(rules, sequence, d, metadata, previousHash).fields)
  {
    hide Payload, PAYLOAD_NAMES, StepsUp, Less;
    PayloadNamesAscend();
    StepsAscend(PAYLOAD_NAMES);
    AscendingDistinct(PAYLOAD_NAMES);
    PayloadHasNames(rules, sequence, d, metadata, previousHash);
  }

  // Objects with the same names in the same order, being the same, agree on every value.
  lemma FieldAgrees(x: seq<Field>, y: seq<Field>, i: nat)
    requires Same(Obj(x), Obj(y), Exact) && DistinctNames(y) && i < |x| == |y| && x[i].name == y[i].name
    ensures Same(x[i].value, y[i].value, Exact)
  {
    assert SameField(x[i], y, Exact);
    FindAt(y, i);
  }

  lemma PayloadDetermines(rules: Rules, n: nat, a: Details, m: Json, p: string, n': nat, b: Details, m': Json, p': string)
    requires Same(Payload(rules, n, a, m, p), Payload(rules, n', b, m', p'), Exact)
    ensures n == n' && p == p' && Same(m, m', Exact)
    ensures a.organization == b.organization && a.actorKind == b.actorKind && a.actorId == b.actorId && a.action == b.action
    ensures a.resourceType == b.resourceType && a.resourceId == b.resourceId && a.requestId == b.requestId
    ensures rules.timestamp(a.occurredAt) == rules.timestamp(b.occurredAt)
  {
    hide Digits, DistinctNames, Payload, Same, PAYLOAD_NAMES;
    PayloadNames(rules, n', b, m', p');
    PayloadHasNames(rules, n, a, m, p);
    PayloadHasNames(rules, n', b, m', p');
    var x, y := Payload(rules, n, a, m, p).fields, Payload(rules, n', b, m', p').fields;
    forall i: nat | i < 11 ensures Same(x[i].value, y[i].value, Exact) {
      FieldAgrees(x, y, i);
    }
    AgreeingPayloads(rules, n, a, m, p, n', b, m', p');
  }

  lemma AgreeingPayloads(rules: Rules, n: nat, a: Details, m: Json, p: string, n': nat, b: Details, m': Json, p': string)
    requires forall i: nat :: i < 11 ==>
               Same(Payload(rules, n, a, m, p).fields[i].value, Payload(rules, n', b, m', p').fields[i].value, Exact)
    ensures n == n' && p == p' && Same(m, m', Exact)
    ensures a.organization == b.organization && a.actorKind == b.actorKind && a.actorId == b.actorId && a.action == b.action
    ensures a.resourceType == b.resourceType && a.resourceId == b.resourceId && a.requestId == b.requestId
    ensures rules.timestamp(a.occurredAt) == rules.timestamp(b.occurredAt)
  {
    hide Digits, Same;
    var x, y := Payload(rules, n, a, m, p).fields, Payload(rules, n', b, m', p').fields;
    forall i: nat | i < 11 && i != 3 ensures x[i].value == y[i].value {
      AtomsAgree(x[i].value, y[i].value);
    }
    assert x[0].value == y[0].value && x[1].value == y[1].value && x[2].value == y[2].value && x[4].value == y[4].value;
    assert x[5].value == y[5].value && x[6].value == y[6].value && x[7].value == y[7].value && x[8].value == y[8].value;
    assert x[9].value == y[9].value && x[10].value == y[10].value && Same(x[3].value, y[3].value, Exact);
    DigitsInjective(n, n');
  }

  lemma AtomsAgree(a: Json, b: Json)
    requires Same(a, b, Exact) && !a.Arr? && !a.Obj?
    ensures a == b
  {
  }

  lemma NormalizedMetadata(rules: Rules, d: Details)
    requires WellFormed(d.metadata) && NormalizeMetadata(rules, d.action, d.metadata).Some?
    ensures NormalizeMetadata(rules, d.action, d.metadata).value == Normal(d.metadata)
    ensures WellFormed(Normal(d.metadata)) && Printed(Normal(d.metadata), rules.valueOf)
    ensures Normal(Normal(d.metadata)) == Normal(d.metadata)
  {
    hide Encode, Utf8Size, Normal;
    NormalIsSame(d.metadata);
    SameEncodesAlike(Normal(d.metadata), d.metadata);
    PrintedNormal(d.metadata, rules.valueOf);
  }

  // Equal hashes: equal numbers, predecessors and records.
  lemma HashDetermines(rules: Rules, n: nat, a: Details, p: string, n': nat, b: Details, p': string)
    requires CollisionFree(rules.digest) && WellFormed(a.metadata) && WellFormed(b.metadata)
    requires EventHash(rules, n, a, p).Some? && EventHash(rules, n, a, p) == EventHash(rules, n', b, p')
    ensures n == n' && p == p' && SameRecord(rules, a, b)
  {
    NormalizedMetadata(rules, a);
    NormalizedMetadata(rules, b);
    hide WellFormed, Printed, Normal, Encode, Same, NormalizeMetadata, Payload, IsSafe;
    var x, y := Payload(rules, n, a, Normal(a.metadata), p), Payload(rules, n', b, Normal(b.metadata), p');
    PayloadIsWellFormed(rules, n, a, Normal(a.metadata), p);
    PayloadIsPrinted(rules, n, a, Normal(a.metadata), p);
    PayloadIsWellFormed(rules, n', b, Normal(b.metadata), p');
    PayloadIsPrinted(rules, n', b, Normal(b.metadata), p');
    assert Encode(x) == Encode(y);
    EncodingDeterminesValue(x, y, rules.valueOf);
    PayloadDetermines(rules, n, a, Normal(a.metadata), p, n', b, Normal(b.metadata), p');
    SameEncodesAlike(Normal(a.metadata), Normal(b.metadata));
  }

  /** Two logs linked from the genesis hash that contain the same hash have, up to it, the same events in the same number. */
  lemma {:induction false} HashDeterminesHistory(rules: Rules, a: seq<Event>, b: seq<Event>, i: nat, j: nat)
    requires CollisionFree(rules.digest) && IsLinked(rules, a) && IsLinked(rules, b)
    requires forall k :: 0 <= k < |a| ==> WellFormed(a[k].details.metadata)
    requires forall k :: 0 <= k < |b| ==> WellFormed(b[k].details.metadata)
    requires i < |a| && j < |b| && a[i].hash == b[j].hash
    ensures i == j
    ensures forall k :: 0 <= k <= i ==> SameRecord(rules, a[k].details, b[k].details) && a[k].hash == b[k].hash
    decreases i
  {
    hide EventHash, SameRecord, WellFormed;
    assert IsLinkedAt(rules, a, i) && IsLinkedAt(rules, b, j);
    HashDetermines(rules, i + 1, a[i].details, PreviousHash(a, i), j + 1, b[j].details, PreviousHash(b, j));
    if i > 0 {
      HashDeterminesHistory(rules, a, b, i - 1, j - 1);
    }
  }

  /** Intact logs that end in the same event hash are identical event by event. */
  lemma LastHashDeterminesLog(rules: Rules, a: seq<Event>, b: seq<Event>, head: Head, head': Head)
    requires CollisionFree(rules.digest) && IsIntact(rules, a, head) && IsIntact(rules, b, head')
    requires forall k :: 0 <= k < |a| ==> WellFormed(a[k].details.metadata)
    requires forall k :: 0 <= k < |b| ==> WellFormed(b[k].details.metadata)
    requires a != [] && b != [] && head.hash == head'.hash
    ensures |a| == |b| && head == head'
    ensures forall k :: 0 <= k < |a| ==> SameRecord(rules, a[k].details, b[k].details) && a[k].hash == b[k].hash
  {
    HashDeterminesHistory(rules, a, b, |a| - 1, |b| - 1);
  }
}
