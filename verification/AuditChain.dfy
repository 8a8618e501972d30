/**
 The audit hash chain: `verify_chain` and `record_payload` in
 services/api/app/domain/audit_integrity.py, and the append that builds a chain
 in services/api/app/services/events.py.

 The hash is a parameter. Where a result needs it, the hash is assumed
 injective, the idealised form of collision resistance. The results: what an
 intact chain commits to, exactly which breaks any tampering leaves, and when a
 log that is written and read in the order of time and id verifies.
 */
module AuditChain {
  import opened Common

  /** What is hashed: everything about a record but its own id, its time and its hashes. */
  datatype Payload = Payload(
    tenantId: string,
    caseId: Option<string>,
    actorType: string,
    actorId: Option<string>,
    action: string,
    resourceType: string,
    resourceId: Option<string>,
    metadata: string)

  datatype Record = Record(
    auditLogId: string,
    createdAt: int,
    tenantId: string,
    caseId: Option<string>,
    actorType: string,
    actorId: Option<string>,
    action: string,
    resourceType: string,
    resourceId: Option<string>,
    metadata: string,
    previousHash: Option<string>,
    recordHash: string)

  /** The chained hash of the previous record's hash and a payload. */
  type ChainHash = (Option<string>, Payload) -> string

  predicate Collide(h: ChainHash, p: Option<string>, x: Payload, q: Option<string>, y: Payload) {
    h(p, x) == h(q, y)
  }

  ghost predicate Injective(h: ChainHash) {
    forall p, q, x, y :: Collide(h, p, x, q, y) ==> p == q && x == y
  }

  function RecordPayload(r: Record): Payload {
    Payload(r.tenantId, if r.caseId.Some? && r.caseId.value != "" then r.caseId else None,
            r.actorType, r.actorId, r.action, r.resourceType, r.resourceId, r.metadata)
  }

  /** The payload leaves out no content field; an empty case id counts as none. */
  lemma PayloadIsContent(r: Record, s: Record)
    ensures RecordPayload(r) == RecordPayload(s) <==>
              && r.tenantId == s.tenantId && r.actorType == s.actorType && r.actorId == s.actorId
              && r.action == s.action && r.resourceType == s.resourceType && r.resourceId == s.resourceId
              && r.metadata == s.metadata
              && (r.caseId == s.caseId || (r.caseId in {None, Some("")} && s.caseId in {None, Some("")}))
  {
  }

  datatype BreakKind = CONTENT_ALTERED | LINK_BROKEN | CHAIN_ROOT_INVALID

  datatype Detail =
    | Link(expected: Option<string>, found: Option<string>)
    | Content(stored: string, recomputed: string)

  datatype ChainBreak = ChainBreak(auditLogId: string, kind: BreakKind, detail: Detail)

  datatype VerificationResult = VerificationResult(verifiedCount: nat, breaks: seq<ChainBreak>) {
    predicate Intact() {
      |breaks| == 0
    }
  }

  // ---------------------------------------------------- the two local checks

  /** The hash a record should name as the one before it. */
  function ExpectedPrevious(records: seq<Record>, i: nat): Option<string>
    requires i < |records|
  {
    if i == 0 then None else Some(records[i - 1].recordHash)
  }

  predicate Linked(records: seq<Record>, i: nat)
    requires i < |records|
  {
    records[i].previousHash == ExpectedPrevious(records, i)
  }

  predicate Genuine(h: ChainHash, r: Record) {
    h(r.previousHash, RecordPayload(r)) == r.recordHash
  }

  function LinkBreak(records: seq<Record>, i: nat): ChainBreak
    requires i < |records|
  {
    ChainBreak(records[i].auditLogId, if i == 0 then CHAIN_ROOT_INVALID else LINK_BROKEN,
               Link(ExpectedPrevious(records, i), records[i].previousHash))
  }

  function ContentBreak(h: ChainHash, r: Record): ChainBreak {
    ChainBreak(r.auditLogId, CONTENT_ALTERED, Content(r.recordHash, h(r.previousHash, RecordPayload(r))))
  }

  /** The breaks at record `i`: a link that does not fit comes before altered content. */
  function BreaksAt(h: ChainHash, records: seq<Record>, i: nat): seq<ChainBreak>
    requires i < |records|
  {
    (if Linked(records, i) then [] else [LinkBreak(records, i)])
    + (if Genuine(h, records[i]) then [] else [ContentBreak(h, records[i])])
  }

  /** The breaks at the first `n` records, in order. */
  function BreaksUpTo(h: ChainHash, records: seq<Record>, n: nat): seq<ChainBreak>
    requires n <= |records|
  {
    if n == 0 then [] else BreaksUpTo(h, records, n - 1) + BreaksAt(h, records, n - 1)
  }

  function Breaks(h: ChainHash, records: seq<Record>): seq<ChainBreak> {
    BreaksUpTo(h, records, |records|)
  }

  /** Record `i` passes both checks. */
  predicate Sound(h: ChainHash, records: seq<Record>, i: nat)
    requires i < |records|
  {
    Linked(records, i) && Genuine(h, records[i])
  }

  ghost predicate Intact(h: ChainHash, records: seq<Record>) {
    forall i {:trigger Sound(h, records, i)} :: 0 <= i < |records| ==> Sound(h, records, i)
  }

  /** The verifier: one pass, carrying only the hash the next record should name. */
  method VerifyChain(h: ChainHash, records: seq<Record>) returns (result: VerificationResult)
    ensures result == VerificationResult(|records|, Breaks(h, records))
    ensures result.Intact() <==> Intact(h, records)
  {
    var breaks: seq<ChainBreak> := [];
    var expectedPrevious: Option<string> := None;
    for index := 0 to |records|
      invariant breaks == BreaksUpTo(h, records, index)
      invariant index < |records| ==> expectedPrevious == ExpectedPrevious(records, index)
    {
      var record := records[index];
      ghost var before := breaks;
      if record.previousHash != expectedPrevious {
        breaks := breaks + [ChainBreak(record.auditLogId, if index == 0 then CHAIN_ROOT_INVALID else LINK_BROKEN,
                                       Link(expectedPrevious, record.previousHash))];
      }
      var recomputed := h(record.previousHash, RecordPayload(record));
      if recomputed != record.recordHash {
        breaks := breaks + [ChainBreak(record.auditLogId, CONTENT_ALTERED, Content(record.recordHash, recomputed))];
      }
      assert breaks == before + BreaksAt(h, records, index);
      expectedPrevious := Some(record.recordHash);
    }
    NoBreaksIffIntact(h, records, |records|);
    return VerificationResult(|records|, breaks);
  }

  lemma NoBreaksAtIff(h: ChainHash, records: seq<Record>, i: nat)
    requires i < |records|
    ensures |BreaksAt(h, records, i)| == 0 <==> Sound(h, records, i)
  {
  }

  lemma {:induction false} NoBreaksIffIntact(h: ChainHash, records: seq<Record>, n: nat)
    requires n <= |records|
    ensures |BreaksUpTo(h, records, n)| == 0
            <==> forall i {:trigger Sound(h, records, i)} :: 0 <= i < n ==> Sound(h, records, i)
  {
    if n > 0 {
      NoBreaksIffIntact(h, records, n - 1);
      NoBreaksAtIff(h, records, n - 1);
      assert |BreaksUpTo(h, records, n)| == |BreaksUpTo(h, records, n - 1)| + |BreaksAt(h, records, n - 1)|;
    }
  }

  /** What is wrong with record `i`, if this break is: its link, with what was expected and found, or its content. */
  predicate Faults(h: ChainHash, records: seq<Record>, i: nat, b: ChainBreak)
    requires i < |records|
  {
    var r := records[i];
    var expected := if i > 0 then Some(records[i - 1].recordHash) else None;
    var recomputed := h(r.previousHash, RecordPayload(r));
    || (&& i == 0 && r.previousHash != None
        && b == ChainBreak(r.auditLogId, CHAIN_ROOT_INVALID, Link(None, r.previousHash)))
    || (&& i > 0 && r.previousHash != expected
        && b == ChainBreak(r.auditLogId, LINK_BROKEN, Link(expected, r.previousHash)))
    || (&& r.recordHash != recomputed
        && b == ChainBreak(r.auditLogId, CONTENT_ALTERED, Content(r.recordHash, recomputed)))
  }

  /** For any records at all: a break is reported exactly when it is what is wrong with some record. */
  lemma {:induction false} ReportedIff(h: ChainHash, records: seq<Record>, n: nat, b: ChainBreak)
    requires n <= |records|
    ensures b in BreaksUpTo(h, records, n) <==> exists i :: 0 <= i < n && Faults(h, records, i, b)
  {
    hide Faults, BreaksAt;
    if n > 0 {
      var front, at := BreaksUpTo(h, records, n - 1), BreaksAt(h, records, n - 1);
      assert BreaksUpTo(h, records, n) == front + at;
      hide BreaksUpTo;
      ReportedIff(h, records, n - 1, b);
      FaultsAt(h, records, n - 1, b);
      InEither(front, at, b);
    }
  }

  lemma InEither(x: seq<ChainBreak>, y: seq<ChainBreak>, b: ChainBreak)
    ensures b in x + y <==> b in x || b in y
  {
  }

  lemma FaultsAt(h: ChainHash, records: seq<Record>, i: nat, b: ChainBreak)
    requires i < |records|
    ensures b in BreaksAt(h, records, i) <==> Faults(h, records, i, b)
  {
  }

  // ------------------------------------------------------------- commitment

  /** Two genuine records with one hash name the same predecessor and hold the same payload. */
  lemma SameHashSameRecord(h: ChainHash, r: Record, s: Record)
    requires Injective(h) && Genuine(h, r) && Genuine(h, s) && r.recordHash == s.recordHash
    ensures r.previousHash == s.previousHash && RecordPayload(r) == RecordPayload(s)
  {
    assert Collide(h, r.previousHash, RecordPayload(r), s.previousHash, RecordPayload(s));
  }

  /** Hashes within an intact chain are pairwise distinct. */
  lemma {:induction false} HashesDistinct(h: ChainHash, chain: seq<Record>, i: nat, j: nat)
    requires Injective(h) && Intact(h, chain) && i < j < |chain|
    ensures chain[i].recordHash != chain[j].recordHash
  {
    assert Sound(h, chain, i) && Sound(h, chain, j);
    if chain[i].recordHash == chain[j].recordHash {
      SameHashSameRecord(h, chain[i], chain[j]);
      if i > 0 {
        HashesDistinct(h, chain, i - 1, j - 1);
      }
      assert false;
    }
  }

  /** The records agree in everything but their ids and times. */
  predicate SameContent(a: seq<Record>, b: seq<Record>) {
    |a| == |b| && forall i :: 0 <= i < |a| ==>
      RecordPayload(a[i]) == RecordPayload(b[i]) && a[i].previousHash == b[i].previousHash
      && a[i].recordHash == b[i].recordHash
  }

  /**
   The last hash commits to the whole history: two chains that verify and end
   in the same hash are equally long and hold the same payloads.
   */
  lemma {:induction false} HeadCommits(h: ChainHash, a: seq<Record>, b: seq<Record>)
    requires Injective(h) && Intact(h, a) && Intact(h, b) && |a| > 0 && |b| > 0
    requires a[|a| - 1].recordHash == b[|b| - 1].recordHash
    ensures SameContent(a, b)
    decreases |a|
  {
    var m, n := |a| - 1, |b| - 1;
    assert Sound(h, a, m) && Sound(h, b, n);
    SameHashSameRecord(h, a[m], b[n]);
    if m > 0 {
      PrefixIntact(h, a, m);
      PrefixIntact(h, b, n);
      HeadCommits(h, a[..m], b[..n]);
    }
  }

  lemma PrefixIntact(h: ChainHash, chain: seq<Record>, n: nat)
    requires Intact(h, chain) && n <= |chain|
    ensures Intact(h, chain[..n])
  {
    forall i | 0 <= i < n ensures Sound(h, chain[..n], i) {
      assert Sound(h, chain, i);
    }
  }

  // --------------------------------------------------------------- appending

  /** The record that an append adds for a payload. */
  predicate IsAppend(h: ChainHash, chain: seq<Record>, r: Record) {
    && r.previousHash == (if chain == [] then None else Some(chain[|chain| - 1].recordHash))
    && r.recordHash == h(r.previousHash, RecordPayload(r))
  }

  /** `records` was built by appends alone. */
  predicate Appended(h: ChainHash, records: seq<Record>) {
    records != [] ==>
      && IsAppend(h, records[..|records| - 1], records[|records| - 1])
      && Appended(h, records[..|records| - 1])
  }

  /** The chains that verify are exactly those that appends build. */
  lemma {:induction false} IntactIffAppended(h: ChainHash, records: seq<Record>)
    ensures Intact(h, records) <==> Appended(h, records)
  {
    if records != [] {
      var n := |records| - 1;
      var front := records[..n];
      IntactIffAppended(h, front);
      assert Sound(h, records, n) <==> IsAppend(h, front, records[n]);
      if Intact(h, records) {
        PrefixIntact(h, records, n);
      }
      if Appended(h, records) {
        forall i | 0 <= i < |records| ensures Sound(h, records, i) {
          if i < n {
            assert Sound(h, front, i);
          }
        }
      }
    }
  }

  // ------------------------------------------------------ reading in key order

  /** Order of ids, which are all printed alike. */
  predicate IdBefore(a: string, b: string) {
    b != "" && (a == "" || a[0] < b[0] || (a[0] == b[0] && IdBefore(a[1..], b[1..])))
  }

  /** The order in which records are read: by time, then by id. */
  predicate Before(r: Record, s: Record) {
    r.createdAt < s.createdAt || (r.createdAt == s.createdAt && IdBefore(r.auditLogId, s.auditLogId))
  }

  lemma {:induction false} IdOrder(a: string, b: string, c: string)
    ensures !IdBefore(a, a)
    ensures IdBefore(a, b) || a == b || IdBefore(b, a)
    ensures IdBefore(a, b) && IdBefore(b, c) ==> IdBefore(a, c)
    decreases |a| + |b| + |c|
  {
    if a != "" {
      IdOrder(a[1..], if b == "" then b else b[1..], if c == "" then c else c[1..]);
      if b != "" && a[0] == b[0] && a[1..] == b[1..] {
        assert a == [a[0]] + a[1..] && b == [b[0]] + b[1..];
      }
    }
  }

  lemma BeforeOrder(r: Record, s: Record, t: Record)
    ensures !Before(r, r)
    ensures r.auditLogId != s.auditLogId ==> Before(r, s) || Before(s, r)
    ensures Before(r, s) && Before(s, t) ==> Before(r, t)
  {
    hide IdBefore;
    IdOrder(r.auditLogId, s.auditLogId, t.auditLogId);
  }

  predicate InKeyOrder(records: seq<Record>) {
    forall i, j :: 0 <= i < j < |records| ==> Before(records[i], records[j])
  }

  /** What a query ordered by time and id returns for a table of records. */
  predicate ReadInOrder(rows: seq<Record>, table: seq<Record>) {
    multiset(rows) == multiset(table) && InKeyOrder(rows)
  }

  /** There is only one such answer. */
  lemma {:induction false} ReadingIsDetermined(a: seq<Record>, b: seq<Record>)
    requires InKeyOrder(a) && ReadInOrder(b, a)
    ensures a == b
    decreases |a|
  {
    hide Before;
    assert |multiset(a)| == |a| && |multiset(b)| == |b|;
    if a != [] {
      assert a[0] in multiset(b) && b[0] in multiset(a);
      SameFirst(a, b);
      WithoutFirst(a, b);
      ReadingIsDetermined(a[1..], b[1..]);
      assert a == [a[0]] + a[1..] && b == [b[0]] + b[1..];
    }
  }

  lemma SameFirst(a: seq<Record>, b: seq<Record>)
    requires a != [] && b != [] && InKeyOrder(a) && InKeyOrder(b) && a[0] in b && b[0] in a
    ensures a[0] == b[0]
  {
    hide Before;
    BeforeOrder(a[0], b[0], a[0]);
  }

  lemma WithoutFirst(a: seq<Record>, b: seq<Record>)
    requires a != [] && b != [] && a[0] == b[0] && multiset(a) == multiset(b)
    ensures multiset(a[1..]) == multiset(b[1..])
  {
    assert a == [a[0]] + a[1..] && b == [b[0]] + b[1..];
    assert multiset(a[1..]) == multiset(a) - multiset{a[0]};
    assert multiset(b[1..]) == multiset(b) - multiset{b[0]};
  }

  /** In rows that verify, a record comes after the one whose hash it names, and directly. */
  lemma NamedComesBefore(h: ChainHash, rows: seq<Record>, p: Record, r: Record)
    requires Injective(h) && Intact(h, rows) && InKeyOrder(rows)
    requires p in rows && r in rows && r.previousHash == Some(p.recordHash)
    ensures Before(p, r)
  {
    var j :| 0 <= j < |rows| && rows[j] == r;
    var k :| 0 <= k < |rows| && rows[k] == p;
    assert Sound(h, rows, j);
    HashOfPosition(h, rows, j - 1, k);
  }

  predicate AfterPrevious(records: seq<Record>, i: nat)
    requires 0 < i < |records|
  {
    Before(records[i - 1], records[i])
  }

  lemma {:induction false} StepsAreInOrder(records: seq<Record>, n: nat)
    requires n <= |records|
    requires forall i {:trigger AfterPrevious(records, i)} :: 0 < i < n ==> AfterPrevious(records, i)
    ensures InKeyOrder(records[..n])
  {
    if n > 1 {
      hide Before;
      StepsAreInOrder(records, n - 1);
      assert AfterPrevious(records, n - 1);
      forall i | 0 <= i < n - 1 ensures Before(records[i], records[n - 1]) {
        if i < n - 2 {
          assert Before(records[..n - 1][i], records[..n - 1][n - 2]);
        }
        BeforeOrder(records[i], records[n - 2], records[n - 1]);
      }
    }
  }

  /**
   Rewriting ids and times. No hash covers them, but the verifier reads the
   records by time and id: it notices exactly when the rewriting changes their
   order.
   */
  lemma RewrittenKeysVerifyIff(h: ChainHash, chain: seq<Record>, table: seq<Record>, rows: seq<Record>)
    requires Injective(h) && Intact(h, chain)
    requires SameContent(chain, table) && ReadInOrder(rows, table)
    ensures Intact(h, rows) <==> InKeyOrder(table)
  {
    assert Intact(h, table) by {
      forall i | 0 <= i < |table| ensures Sound(h, table, i) {
        assert Sound(h, chain, i);
      }
    }
    if InKeyOrder(table) {
      ReadingIsDetermined(table, rows);
    }
    if Intact(h, rows) {
      forall i | 0 < i < |table| ensures AfterPrevious(table, i) {
        assert Sound(h, table, i);
        assert table[i - 1] in multiset(table) && table[i] in multiset(table);
        NamedComesBefore(h, rows, table[i - 1], table[i]);
      }
      StepsAreInOrder(table, |table|);
      assert table[..|table|] == table;
    }
  }

  /** `r` is the record that a query for the newest one finds. */
  predicate IsNewest(r: Record, table: seq<Record>) {
    r in table && forall s :: s in table && s != r ==> Before(s, r)
  }

  /** Record `n` was appended to the table as it then was: it names the newest record's hash. */
  predicate AppendedToNewest(h: ChainHash, table: seq<Record>, n: nat)
    requires n < |table|
  {
    && Genuine(h, table[n])
    && (if n == 0 then table[0].previousHash == None
        else exists r :: r in table[..n] && IsNewest(r, table[..n]) && table[n].previousHash == Some(r.recordHash))
  }

  /** The table as honest appends leave it, in the order in which they were made. */
  predicate HonestLog(h: ChainHash, table: seq<Record>) {
    forall n {:trigger AppendedToNewest(h, table, n)} :: 0 <= n < |table| ==> AppendedToNewest(h, table, n)
  }

  /**
   An append looks up the newest record by time and id, and the verifier reads
   by time and id. An honest log verifies exactly when every append got a time
   and id after all those before it.
   */
  lemma HonestLogVerifiesIff(h: ChainHash, table: seq<Record>, rows: seq<Record>)
    requires Injective(h) && HonestLog(h, table) && ReadInOrder(rows, table)
    ensures Intact(h, rows) <==> InKeyOrder(table)
  {
    if InKeyOrder(table) {
      ReadingIsDetermined(table, rows);
      forall n | 0 <= n < |table| ensures Sound(h, table, n) {
        assert AppendedToNewest(h, table, n);
        if n > 0 {
          NewestIsLast(table, n);
        }
      }
    }
    if Intact(h, rows) {
      forall i, n | 0 <= i < n < |table| ensures Before(table[i], table[n]) {
        assert AppendedToNewest(h, table, n);
        var r :| r in table[..n] && IsNewest(r, table[..n]) && table[n].previousHash == Some(r.recordHash);
        assert table[i] in table[..n] by {
          assert table[..n][i] == table[i];
        }
        assert r in multiset(table) && table[n] in multiset(table);
        NamedComesBefore(h, rows, r, table[n]);
        BeforeOrder(table[i], r, table[n]);
      }
    }
  }

  lemma NewestIsLast(table: seq<Record>, n: nat)
    requires InKeyOrder(table) && 0 < n <= |table|
    ensures forall r :: IsNewest(r, table[..n]) ==> r == table[n - 1]
  {
    var last := table[..n][n - 1];
    forall r | IsNewest(r, table[..n]) ensures r == last {
      var j :| 0 <= j < n && table[..n][j] == r;
      BeforeOrder(last, r, last);
    }
  }

  /**
   Two honest appends at the same time, the second with the smaller id: the
   record read first names a predecessor, and the log does not verify.
   */
  lemma SameTimeCanBreak(h: ChainHash, r: Record, s: Record)
    requires r.createdAt == s.createdAt && IdBefore(s.auditLogId, r.auditLogId)
    requires IsAppend(h, [], r) && IsAppend(h, [r], s)
    ensures HonestLog(h, [r, s]) && ReadInOrder([s, r], [r, s]) && !Intact(h, [s, r])
  {
    assert [r, s][..1] == [r] && IsNewest(r, [r]);
    assert AppendedToNewest(h, [r, s], 0) && AppendedToNewest(h, [r, s], 1);
    assert !Sound(h, [s, r], 0);
  }

  // --------------------------------------------------------------- tampering

  /** Records chosen from a chain, in any order and as often as one likes. */
  predicate Choice(picks: seq<nat>, chain: seq<Record>) {
    forall i :: 0 <= i < |picks| ==> picks[i] < |chain|
  }

  /** Position `i` carries on where the position before it left off. */
  predicate Continues(picks: seq<nat>, i: nat)
    requires i < |picks|
  {
    picks[i] == (if i == 0 then 0 else picks[i - 1] + 1)
  }

  /** `records` are the chosen records, with contents possibly rewritten but hashes kept. */
  predicate Tampered(records: seq<Record>, picks: seq<nat>, chain: seq<Record>)
    requires Choice(picks, chain)
  {
    |records| == |picks| && forall i :: 0 <= i < |picks| ==>
      records[i].previousHash == chain[picks[i]].previousHash && records[i].recordHash == chain[picks[i]].recordHash
  }

  /**
   Whatever records of an intact chain are removed, repeated, moved or
   rewritten in place, the verifier reports a broken link exactly where the
   original order is left, and altered content exactly where a payload differs.
   */
  lemma TamperingIsLocalised(h: ChainHash, chain: seq<Record>, picks: seq<nat>, records: seq<Record>, i: nat)
    requires Injective(h) && Intact(h, chain)
    requires Choice(picks, chain) && Tampered(records, picks, chain) && i < |records|
    ensures Linked(records, i) <==> Continues(picks, i)
    ensures Genuine(h, records[i]) <==> RecordPayload(records[i]) == RecordPayload(chain[picks[i]])
  {
    var k := picks[i];
    assert Sound(h, chain, k);
    if i > 0 && k > 0 {
      HashOfPosition(h, chain, picks[i - 1], k - 1);
    }
    if Genuine(h, records[i]) {
      assert Collide(h, chain[k].previousHash, RecordPayload(records[i]),
                     chain[k].previousHash, RecordPayload(chain[k]));
    }
  }

  /** What the verifier has to say about position `i`, told from the original chain alone. */
  function Findings(h: ChainHash, chain: seq<Record>, picks: seq<nat>, records: seq<Record>, i: nat): seq<ChainBreak>
    requires Choice(picks, chain) && i < |picks| == |records|
  {
    var at := picks[i];
    var before := if at == 0 then None else Some(chain[at - 1].recordHash);
    (if at == (if i == 0 then 0 else picks[i - 1] + 1) then []
     else if i == 0 then [ChainBreak(records[i].auditLogId, CHAIN_ROOT_INVALID, Link(None, before))]
     else [ChainBreak(records[i].auditLogId, LINK_BROKEN, Link(Some(chain[picks[i - 1]].recordHash), before))])
    + (if RecordPayload(records[i]) == RecordPayload(chain[at]) then []
       else [ChainBreak(records[i].auditLogId, CONTENT_ALTERED,
                        Content(chain[at].recordHash, h(before, RecordPayload(records[i]))))])
  }

  /** The whole report on a tampered chain: the findings at each position, first to last, and nothing else. */
  lemma {:induction false} TamperingReport(h: ChainHash, chain: seq<Record>, picks: seq<nat>, records: seq<Record>,
                                           n: nat)
    requires Injective(h) && Intact(h, chain)
    requires Choice(picks, chain) && Tampered(records, picks, chain) && n <= |records|
    ensures BreaksUpTo(h, records, n)
            == Flatten(seq(n, i requires 0 <= i < n => Findings(h, chain, picks, records, i)))
  {
    if n > 0 {
      hide Findings, BreaksAt, Injective, Intact;
      var i := n - 1;
      TamperingReport(h, chain, picks, records, i);
      FindingsAt(h, chain, picks, records, i);
      var all := seq(n, k requires 0 <= k < n => Findings(h, chain, picks, records, k));
      var front := seq(i, k requires 0 <= k < i => Findings(h, chain, picks, records, k));
      assert all == front + [Findings(h, chain, picks, records, i)];
      FlattenAppend(front, [Findings(h, chain, picks, records, i)]);
      FlattenSingle(Findings(h, chain, picks, records, i));
    }
  }

  lemma FindingsAt(h: ChainHash, chain: seq<Record>, picks: seq<nat>, records: seq<Record>, i: nat)
    requires Injective(h) && Intact(h, chain)
    requires Choice(picks, chain) && Tampered(records, picks, chain) && i < |records|
    ensures BreaksAt(h, records, i) == Findings(h, chain, picks, records, i)
  {
    hide Injective;
    TamperingIsLocalised(h, chain, picks, records, i);
    assert Sound(h, chain, picks[i]);
  }

  lemma HashOfPosition(h: ChainHash, chain: seq<Record>, i: nat, j: nat)
    requires Injective(h) && Intact(h, chain) && i < |chain| && j < |chain|
    ensures chain[i].recordHash == chain[j].recordHash <==> i == j
  {
    if i < j {
      HashesDistinct(h, chain, i, j);
    } else if j < i {
      HashesDistinct(h, chain, j, i);
    }
  }

  /** Rearranging unaltered records goes unnoticed exactly when what is left is a prefix of the chain. */
  lemma {:induction false} OnlyPrefixesVerify(h: ChainHash, chain: seq<Record>, picks: seq<nat>, records: seq<Record>)
    requires Injective(h) && Intact(h, chain) && Choice(picks, chain)
    requires |records| == |picks| && forall i :: 0 <= i < |picks| ==> records[i] == chain[picks[i]]
    ensures Intact(h, records) <==> records <= chain && forall i :: 0 <= i < |picks| ==> picks[i] == i
  {
    forall i | 0 <= i < |records| ensures Sound(h, records, i) <==> Continues(picks, i) {
      TamperingIsLocalised(h, chain, picks, records, i);
    }
    if Intact(h, records) {
      forall i | 0 <= i < |picks| ensures Continues(picks, i) {
        assert Sound(h, records, i);
      }
      CountsUp(picks, |picks|);
    }
    if forall i :: 0 <= i < |picks| ==> picks[i] == i {
      if |picks| > 0 {
        assert picks[|picks| - 1] < |chain|;
      }
      assert records == chain[..|picks|];
      forall i | 0 <= i < |picks| ensures Sound(h, records, i) {
        assert Continues(picks, i);
      }
    }
  }

  lemma {:induction false} CountsUp(picks: seq<nat>, n: nat)
    requires n <= |picks| && forall i :: 0 <= i < n ==> Continues(picks, i)
    ensures forall i :: 0 <= i < n ==> picks[i] == i
  {
    if n > 0 {
      CountsUp(picks, n - 1);
      assert Continues(picks, n - 1);
    }
  }

  // The exact report of each single act of tampering.

  lemma {:induction false} SoundUpTo(h: ChainHash, records: seq<Record>, p: nat, n: nat)
    requires p < n <= |records|
    requires forall i {:trigger Sound(h, records, i)} :: 0 <= i < |records| && i != p ==> Sound(h, records, i)
    ensures BreaksUpTo(h, records, n) == BreaksAt(h, records, p)
  {
    NoBreaksIffIntact(h, records, p);
    if n == p + 1 {
      assert BreaksUpTo(h, records, p) == [];
    } else {
      SoundUpTo(h, records, p, n - 1);
      assert Sound(h, records, n - 1);
      assert BreaksAt(h, records, n - 1) == [];
    }
  }

  /** `r` with its payload replaced and its hashes kept. */
  function WithPayload(r: Record, p: Payload): Record {
    r.(tenantId := p.tenantId, caseId := p.caseId, actorType := p.actorType, actorId := p.actorId,
       action := p.action, resourceType := p.resourceType, resourceId := p.resourceId, metadata := p.metadata)
  }

  /** A payload as it is hashed: an empty case id counts as none. */
  function Hashed(p: Payload): Payload {
    p.(caseId := if p.caseId == Some("") then None else p.caseId)
  }

  /** Editing one record in place is reported once, as altered content of that record. */
  lemma EditIsReported(h: ChainHash, chain: seq<Record>, i: nat, p: Payload)
    requires Injective(h) && Intact(h, chain) && i < |chain|
    requires RecordPayload(WithPayload(chain[i], p)) != RecordPayload(chain[i])
    ensures Breaks(h, chain[i := WithPayload(chain[i], p)])
            == [ChainBreak(chain[i].auditLogId, CONTENT_ALTERED,
                           Content(chain[i].recordHash, h(chain[i].previousHash, Hashed(p))))]
  {
    var edited := chain[i := WithPayload(chain[i], p)];
    var picks := seq(|chain|, k requires 0 <= k => k);
    forall k | 0 <= k < |chain|
      ensures Linked(edited, k) && (Genuine(h, edited[k]) <==> k != i) && (k != i ==> Sound(h, edited, k))
    {
      TamperingIsLocalised(h, chain, picks, edited, k);
    }
    SoundUpTo(h, edited, i, |edited|);
  }

  /** Editing a record and recomputing its hash is reported once, at its successor; at the last record, not at all. */
  lemma RehashIsReported(h: ChainHash, chain: seq<Record>, i: nat, r: Record)
    requires Injective(h) && Intact(h, chain) && i < |chain|
    requires r.previousHash == chain[i].previousHash && Genuine(h, r)
    requires RecordPayload(r) != RecordPayload(chain[i])
    ensures Breaks(h, chain[i := r])
            == (if i + 1 < |chain|
                then [ChainBreak(chain[i + 1].auditLogId, LINK_BROKEN,
                                 Link(Some(r.recordHash), Some(chain[i].recordHash)))]
                else [])
  {
    var edited := chain[i := r];
    assert Sound(h, chain, i);
    if r.recordHash == chain[i].recordHash {
      SameHashSameRecord(h, r, chain[i]);
      assert false;
    }
    forall k | 0 <= k < |chain| && k != i + 1 ensures Sound(h, edited, k) {
      assert Sound(h, chain, k);
    }
    if i + 1 < |chain| {
      assert Sound(h, chain, i + 1);
      SoundUpTo(h, edited, i + 1, |edited|);
    } else {
      NoBreaksIffIntact(h, edited, |edited|);
    }
  }

  /**
   Deleting a block is reported once, just after the gap: as an invalid root
   when the block starts the chain. Cutting off the end is not reported.
   */
  lemma DeletionIsReported(h: ChainHash, chain: seq<Record>, i: nat, j: nat)
    requires Injective(h) && Intact(h, chain) && i < j <= |chain|
    ensures Breaks(h, chain[..i] + chain[j..])
            == (if j == |chain| then []
                else if i == 0
                then [ChainBreak(chain[j].auditLogId, CHAIN_ROOT_INVALID, Link(None, Some(chain[j - 1].recordHash)))]
                else [ChainBreak(chain[j].auditLogId, LINK_BROKEN,
                                 Link(Some(chain[i - 1].recordHash), Some(chain[j - 1].recordHash)))])
  {
    var left := chain[..i] + chain[j..];
    var picks := seq(|left|, k requires 0 <= k => if k < i then k else k + (j - i));
    forall k | 0 <= k < |left|
      ensures Genuine(h, left[k]) && (Linked(left, k) <==> k != i) && (k != i ==> Sound(h, left, k))
    {
      assert left[k] == chain[picks[k]];
      TamperingIsLocalised(h, chain, picks, left, k);
    }
    if j < |chain| {
      assert Sound(h, chain, j) && Sound(h, chain, j - 1);
      assert left[i] == chain[j] && (i > 0 ==> left[i - 1] == chain[i - 1]);
      SoundUpTo(h, left, i, |left|);
    } else {
      NoBreaksIffIntact(h, left, |left|);
    }
  }
}
