/**
 The ERP's idempotent write tables (services/mock_erp/app.py) and the
 idempotency keys of the workflow's gate (services/api/app/agents/workflow.py)
 and of the worker that sends the writes (services/api/app/workers/erp.py).

 Each table keeps the first write under a key for ever: the same write again is
 a replay, another one under the same key is refused. The results hold for
 every history of requests: what the table is, what each answer was, and that
 requests under different keys never affect each other.
 */
module ErpTable {
  import opened Common

  /** What a table keeps under a key: the id it gave out and what was written. */
  datatype Row<P> = Row(id: string, body: P)

  datatype Answer = IDEMPOTENCY_KEY_REQUIRED | IDEMPOTENCY_KEY_REUSED | Accepted(id: string, replay: bool)

  type Table<P> = map<string, Row<P>>

  datatype Request<P> = Request(key: string, body: P)

  function AnswerTo<P(==)>(table: Table<P>, r: Request<P>, idOf: string -> string): Answer {
    if r.key == "" then IDEMPOTENCY_KEY_REQUIRED
    else if r.key in table then
      if table[r.key].body != r.body then IDEMPOTENCY_KEY_REUSED else Accepted(table[r.key].id, true)
    else Accepted(idOf(r.key), false)
  }

  function AfterRequest<P>(table: Table<P>, r: Request<P>, idOf: string -> string): Table<P> {
    if r.key == "" || r.key in table then table else table[r.key := Row(idOf(r.key), r.body)]
  }

  /** The body of a resolution is the case it is for and its JSON text; of a vendor, its JSON text. */
  datatype Resolution = Resolution(caseId: string, payload: string)

  /** The two endpoints and their tables. `vendorId` and `resolutionId` are the ids derived from a key. */
  class MockErp {
    var vendorWrites: Table<string>
    var invoiceResolutions: Table<Resolution>
    const vendorId: string -> string
    const resolutionId: string -> string

    constructor (vendorId: string -> string, resolutionId: string -> string)
      ensures vendorWrites == map[] && invoiceResolutions == map[]
      ensures this.vendorId == vendorId && this.resolutionId == resolutionId
    {
      this.vendorId, this.resolutionId := vendorId, resolutionId;
      vendorWrites, invoiceResolutions := map[], map[];
    }

    method CreateVendor(payload: string, idempotencyKey: string) returns (answer: Answer)
      modifies this`vendorWrites
      ensures answer == AnswerTo(old(vendorWrites), Request(idempotencyKey, payload), vendorId)
      ensures vendorWrites == AfterRequest(old(vendorWrites), Request(idempotencyKey, payload), vendorId)
    {
      if idempotencyKey == "" {
        return IDEMPOTENCY_KEY_REQUIRED;
      }
      if idempotencyKey in vendorWrites {
        var existing := vendorWrites[idempotencyKey];
        if existing.body != payload {
          return IDEMPOTENCY_KEY_REUSED;
        }
        return Accepted(existing.id, true);
      }
      var id := vendorId(idempotencyKey);
      vendorWrites := vendorWrites[idempotencyKey := Row(id, payload)];
      return Accepted(id, false);
    }

    method ResolveInvoiceException(caseId: string, payload: string, idempotencyKey: string) returns (answer: Answer)
      modifies this`invoiceResolutions
      ensures answer == AnswerTo(old(invoiceResolutions),
                                 Request(idempotencyKey, Resolution(caseId, payload)), resolutionId)
      ensures invoiceResolutions == AfterRequest(old(invoiceResolutions),
                                                 Request(idempotencyKey, Resolution(caseId, payload)), resolutionId)
    {
      if idempotencyKey == "" {
        return IDEMPOTENCY_KEY_REQUIRED;
      }
      if idempotencyKey in invoiceResolutions {
        var existing := invoiceResolutions[idempotencyKey];
        if existing.body.caseId != caseId || existing.body.payload != payload {
          return IDEMPOTENCY_KEY_REUSED;
        }
        return Accepted(existing.id, true);
      }
      var id := resolutionId(idempotencyKey);
      invoiceResolutions := invoiceResolutions[idempotencyKey := Row(id, Resolution(caseId, payload))];
      return Accepted(id, false);
    }
  }

  // --------------------------------------------------------------- histories

  /** The table after a history of requests. */
  function TableAfter<P>(history: seq<Request<P>>, idOf: string -> string): Table<P> {
    if history == [] then map[]
    else AfterRequest(TableAfter(history[..|history| - 1], idOf), history[|history| - 1], idOf)
  }

  /** The answer request `i` of a history was given. */
  function AnswerAt<P(==)>(history: seq<Request<P>>, i: nat, idOf: string -> string): Answer
    requires i < |history|
  {
    AnswerTo(TableAfter(history[..i], idOf), history[i], idOf)
  }

  /** Request `i` is the first of its key. */
  predicate IsFirst<P>(history: seq<Request<P>>, i: nat)
    requires i < |history|
  {
    history[i].key != "" && forall j :: 0 <= j < i ==> history[j].key != history[i].key
  }

  /** The table holds, for every key, exactly what the first request under that key wrote. */
  lemma {:induction false} FirstRequestWins<P(!new)>(history: seq<Request<P>>, idOf: string -> string)
    ensures forall i :: 0 <= i < |history| && IsFirst(history, i) ==>
              history[i].key in TableAfter(history, idOf)
              && TableAfter(history, idOf)[history[i].key] == Row(idOf(history[i].key), history[i].body)
    ensures forall key :: key in TableAfter(history, idOf) ==>
              exists i :: 0 <= i < |history| && IsFirst(history, i) && history[i].key == key
  {
    if history != [] {
      var n := |history| - 1;
      var front, last := history[..n], history[n];
      FirstRequestWins(front, idOf);
      var table := TableAfter(front, idOf);
      forall i | 0 <= i < |history| && IsFirst(history, i)
        ensures history[i].key in TableAfter(history, idOf)
                && TableAfter(history, idOf)[history[i].key] == Row(idOf(history[i].key), history[i].body)
      {
        FirstStays(history, n, i);
        if i == n {
          assert forall j :: 0 <= j < n ==> front[j].key == history[j].key != last.key;
          assert last.key !in table;
        }
      }
      forall key | key in TableAfter(history, idOf)
        ensures exists i :: 0 <= i < |history| && IsFirst(history, i) && history[i].key == key
      {
        if key in table {
          var j :| 0 <= j < |front| && IsFirst(front, j) && front[j].key == key;
          FirstStays(history, n, j);
        } else {
          NewIsFirst(history, n, idOf);
        }
      }
    }
  }

  /** Whether a request is the first of its key depends only on what came before it. */
  lemma FirstStays<P>(history: seq<Request<P>>, n: nat, i: nat)
    requires n <= |history| && i < |history|
    ensures i < n ==> (IsFirst(history[..n], i) <==> IsFirst(history, i))
  {
    if i < n {
      assert forall j :: 0 <= j <= i ==> history[..n][j] == history[j];
    }
  }

  lemma {:induction false} NewIsFirst<P>(history: seq<Request<P>>, n: nat, idOf: string -> string)
    requires n < |history| && history[n].key != "" && history[n].key !in TableAfter(history[..n], idOf)
    ensures IsFirst(history, n)
  {
    forall j | 0 <= j < n ensures history[j].key != history[n].key {
      assert history[..n][j] == history[j];
      if history[j].key != "" {
        SeenIsKept(history[..n], j, idOf);
      }
    }
  }

  /** A key once seen stays in the table. */
  lemma {:induction false} SeenIsKept<P>(history: seq<Request<P>>, j: nat, idOf: string -> string)
    requires j < |history| && history[j].key != ""
    ensures history[j].key in TableAfter(history, idOf)
    decreases |history|
  {
    var n := |history| - 1;
    if j < n {
      assert history[..n][j] == history[j];
      if history[j].key != "" {
        SeenIsKept(history[..n], j, idOf);
      }
    }
  }

  /**
   Every answer is settled by the first request under its key: that request is
   accepted as new, the same again is a replay with the same id, and anything
   else under the key is refused.
   */
  lemma AnswersByFirst<P(!new)>(history: seq<Request<P>>, i: nat, j: nat, idOf: string -> string)
    requires i <= j < |history| && IsFirst(history, i) && history[j].key == history[i].key
    ensures AnswerAt(history, j, idOf)
            == (if j == i then Accepted(idOf(history[i].key), false)
                else if history[j].body == history[i].body then Accepted(idOf(history[i].key), true)
                else IDEMPOTENCY_KEY_REUSED)
  {
    var before := history[..j];
    FirstRequestWins(before, idOf);
    if i < j {
      FirstStays(history, j, i);
      assert before[i] == history[i];
    } else {
      assert forall k :: 0 <= k < j ==> before[k].key == history[k].key != history[j].key;
      assert history[j].key !in TableAfter(before, idOf);
    }
  }

  /** Every request of every history: without a key it is refused and writes nothing, and else the first settles it. */
  lemma AnswerIsSettled<P(!new)>(history: seq<Request<P>>, j: nat, idOf: string -> string)
    requires j < |history|
    ensures history[j].key == "" ==>
              && AnswerAt(history, j, idOf) == IDEMPOTENCY_KEY_REQUIRED
              && TableAfter(history[..j + 1], idOf) == TableAfter(history[..j], idOf)
    ensures history[j].key != "" ==> exists i ::
              && 0 <= i <= j && IsFirst(history, i) && history[i].key == history[j].key
              && AnswerAt(history, j, idOf)
                 == (if j == i then Accepted(idOf(history[i].key), false)
                     else if history[j].body == history[i].body then Accepted(idOf(history[i].key), true)
                     else IDEMPOTENCY_KEY_REUSED)
  {
    if history[j].key == "" {
      assert history[..j + 1][..j] == history[..j];
    } else {
      var i := FirstOf(history, j);
      AnswersByFirst(history, i, j, idOf);
    }
  }

  lemma FirstOf<P>(history: seq<Request<P>>, j: nat) returns (first: nat)
    requires j < |history| && history[j].key != ""
    ensures first <= j && IsFirst(history, first) && history[first].key == history[j].key
    decreases j
  {
    first := j;
    if i :| 0 <= i < j && history[i].key == history[j].key {
      first := FirstOf(history, i);
    }
  }

  // ------------------------------------------------------------ independence

  /** The requests under one key, in order. */
  function Only<P>(history: seq<Request<P>>, key: string): seq<Request<P>> {
    if history == [] then []
    else Only(history[..|history| - 1], key)
         + (if history[|history| - 1].key == key then [history[|history| - 1]] else [])
  }

  /** The answers to the requests under one key, in order. */
  function AnswersTo<P(==)>(history: seq<Request<P>>, key: string, idOf: string -> string): seq<Answer> {
    if history == [] then []
    else
      var n := |history| - 1;
      AnswersTo(history[..n], key, idOf)
      + (if history[n].key == key then [AnswerTo(TableAfter(history[..n], idOf), history[n], idOf)] else [])
  }

  /** The answers listed for a key are those that its requests were given. */
  lemma {:induction false} AnswersAreListed<P>(history: seq<Request<P>>, key: string, idOf: string -> string, i: nat)
    requires i < |history| && history[i].key == key
    ensures |AnswersTo(history, key, idOf)| == |Only(history, key)|
    ensures |Only(history[..i], key)| < |Only(history, key)|
    ensures AnswersTo(history, key, idOf)[|Only(history[..i], key)|] == AnswerAt(history, i, idOf)
    decreases |history|
  {
    hide AnswerTo, TableAfter;
    var n := |history| - 1;
    var front := history[..n];
    AnswersCounted(front, key, idOf);
    if i < n {
      AnswersAreListed(front, key, idOf, i);
      assert front[..i] == history[..i];
    }
  }

  lemma {:induction false} AnswersCounted<P>(history: seq<Request<P>>, key: string, idOf: string -> string)
    ensures |AnswersTo(history, key, idOf)| == |Only(history, key)|
  {
    if history != [] {
      AnswersCounted(history[..|history| - 1], key, idOf);
    }
  }

  /** What a table says under one key. */
  function Lookup<P>(table: Table<P>, key: string): Option<Row<P>> {
    if key in table then Some(table[key]) else None
  }

  /** What one more request does to the requests, the answers and the row under a key. */
  lemma OneMoreUnderKey<P>(history: seq<Request<P>>, r: Request<P>, key: string, idOf: string -> string)
    ensures r.key != key ==> Only(history + [r], key) == Only(history, key)
    ensures r.key == key ==> Only(history + [r], key) == Only(history, key) + [r]
    ensures r.key != key ==> AnswersTo(history + [r], key, idOf) == AnswersTo(history, key, idOf)
    ensures r.key == key ==>
              AnswersTo(history + [r], key, idOf)
              == AnswersTo(history, key, idOf) + [AnswerTo(TableAfter(history, idOf), r, idOf)]
    ensures r.key != key ==>
              Lookup(TableAfter(history + [r], idOf), key) == Lookup(TableAfter(history, idOf), key)
    ensures r.key == key ==>
              Lookup(TableAfter(history + [r], idOf), key)
              == Lookup(AfterRequest(TableAfter(history, idOf), r, idOf), key)
  {
    assert (history + [r])[..|history|] == history;
  }

  lemma SameRowSameAnswer<P>(s: Table<P>, t: Table<P>, r: Request<P>, idOf: string -> string)
    requires Lookup(s, r.key) == Lookup(t, r.key)
    ensures AnswerTo(s, r, idOf) == AnswerTo(t, r, idOf)
    ensures Lookup(AfterRequest(s, r, idOf), r.key) == Lookup(AfterRequest(t, r, idOf), r.key)
  {
  }

  /** Under one key, a history does what its requests under that key would do alone. */
  lemma {:induction false} KeysAreIndependent<P>(history: seq<Request<P>>, key: string, idOf: string -> string)
    ensures Lookup(TableAfter(history, idOf), key) == Lookup(TableAfter(Only(history, key), idOf), key)
    ensures AnswersTo(history, key, idOf) == AnswersTo(Only(history, key), key, idOf)
  {
    if history != [] {
      hide TableAfter, AfterRequest, AnswersTo, AnswerTo, Only, Lookup;
      var n := |history| - 1;
      var front, last := history[..n], history[n];
      assert history == front + [last];
      KeysAreIndependent(front, key, idOf);
      OneMoreUnderKey(front, last, key, idOf);
      if last.key == key {
        OneMoreUnderKey(Only(front, key), last, key, idOf);
        SameRowSameAnswer(TableAfter(front, idOf), TableAfter(Only(front, key), idOf), last, idOf);
      }
    }
  }

  /**
   However requests under different keys are interleaved, the table and every
   answer are the same, as long as the order under each key is.
   */
  lemma InterleavingIrrelevant<P(!new)>(a: seq<Request<P>>, b: seq<Request<P>>, idOf: string -> string)
    requires forall key :: Only(a, key) == Only(b, key)
    ensures TableAfter(a, idOf) == TableAfter(b, idOf)
    ensures forall key :: AnswersTo(a, key, idOf) == AnswersTo(b, key, idOf)
  {
    var s, t := TableAfter(a, idOf), TableAfter(b, idOf);
    forall key ensures Lookup(s, key) == Lookup(t, key) && AnswersTo(a, key, idOf) == AnswersTo(b, key, idOf) {
      KeysAreIndependent(a, key, idOf);
      KeysAreIndependent(b, key, idOf);
      assert Only(a, key) == Only(b, key);
    }
    assert forall key :: Lookup(s, key) == Lookup(t, key);
    assert forall key {:trigger key in s} {:trigger key in t} :: (key in s <==> key in t) by {
      forall key ensures key in s <==> key in t {
        assert Lookup(s, key) == Lookup(t, key);
      }
    }
    forall key | key in s ensures s[key] == t[key] {
      assert Lookup(s, key) == Lookup(t, key);
    }
  }

  /** A request without a key, or under a key already written. */
  predicate Repeats<P>(history: seq<Request<P>>, r: Request<P>) {
    r.key == "" || exists j :: 0 <= j < |history| && history[j].key == r.key
  }

  /** A replay or a conflicting reuse, inserted anywhere, leaves the table as it would have been. */
  lemma {:induction false} RepeatsKeepTable<P>(a: seq<Request<P>>, r: Request<P>, b: seq<Request<P>>,
                                               idOf: string -> string)
    requires Repeats(a, r)
    ensures TableAfter(a + [r] + b, idOf) == TableAfter(a + b, idOf)
    decreases |b|
  {
    if b == [] {
      assert a + [r] + b == a + [r] && a + b == a;
      RepeatAtEnd(a, r, idOf);
    } else {
      hide TableAfter, AfterRequest, Repeats;
      var front, last := b[..|b| - 1], b[|b| - 1];
      RepeatsKeepTable(a, r, front, idOf);
      assert a + [r] + b == a + [r] + front + [last] && a + b == a + front + [last];
      TableAfterOneMore(a + [r] + front, last, idOf);
      TableAfterOneMore(a + front, last, idOf);
    }
  }

  lemma RepeatAtEnd<P>(a: seq<Request<P>>, r: Request<P>, idOf: string -> string)
    requires Repeats(a, r)
    ensures TableAfter(a + [r], idOf) == TableAfter(a, idOf)
  {
    TableAfterOneMore(a, r, idOf);
    if r.key != "" {
      var j :| 0 <= j < |a| && a[j].key == r.key;
      SeenIsKept(a, j, idOf);
    }
  }

  lemma TableAfterOneMore<P>(history: seq<Request<P>>, r: Request<P>, idOf: string -> string)
    ensures TableAfter(history + [r], idOf) == AfterRequest(TableAfter(history, idOf), r, idOf)
  {
    assert (history + [r])[..|history|] == history;
  }

  /** Nor does it change the answer to any other request. */
  lemma RepeatsKeepAnswers<P>(a: seq<Request<P>>, r: Request<P>, b: seq<Request<P>>, i: nat, idOf: string -> string)
    requires Repeats(a, r)
    ensures i < |a| ==> AnswerAt(a + [r] + b, i, idOf) == AnswerAt(a + b, i, idOf)
    ensures i < |b| ==> AnswerAt(a + [r] + b, |a| + 1 + i, idOf) == AnswerAt(a + b, |a| + i, idOf)
  {
    var more, less := a + [r] + b, a + b;
    if i < |a| {
      assert more[..i] == less[..i];
    }
    if i < |b| {
      RepeatsKeepTable(a, r, b[..i], idOf);
      assert more[..|a| + 1 + i] == a + [r] + b[..i];
      assert less[..|a| + i] == a + b[..i];
    }
  }

  // -------------------------------------------------------- idempotency keys

  /** The start of the key that the workflow's gate names. */
  function GateName(kind: WorkflowKind): string {
    if kind == Supplier then "erp:supplier" else "erp:invoice"
  }

  /** The start of the key that the worker sends to the ERP. */
  function WriteName(kind: WorkflowKind): string {
    if kind == Supplier then "erp.vendor.create" else "erp.invoice.resolve"
  }

  /** A name, a case id and an evidence hash, with colons between them. */
  function Key(name: string, caseId: string, evidenceHash: string): string {
    name + (":" + (caseId + (":" + evidenceHash)))
  }

  function ErpKey(kind: WorkflowKind, caseId: string, evidenceHash: string): string {
    Key(GateName(kind), caseId, evidenceHash)
  }

  function WriteKey(kind: WorkflowKind, caseId: string, evidenceHash: string): string {
    Key(WriteName(kind), caseId, evidenceHash)
  }

  /** The keys as texts. */
  lemma KeysRead(c: string, e: string)
    ensures ErpKey(Supplier, c, e) == "erp:supplier:" + c + ":" + e
    ensures ErpKey(Invoice, c, e) == "erp:invoice:" + c + ":" + e
    ensures WriteKey(Supplier, c, e) == "erp.vendor.create:" + c + ":" + e
    ensures WriteKey(Invoice, c, e) == "erp.invoice.resolve:" + c + ":" + e
  {
  }

  /** `longer` is `c` with a colon and a text added, and `e` is what remains with that text before it. */
  ghost predicate Shifted(c: string, e: string, longer: string, rest: string) {
    exists m :: longer == c + (":" + m) && e == m + (":" + rest)
  }

  /** Two ways to put a text together from two parts and a colon between them. */
  lemma ColonSplits(a: string, x: string, b: string, y: string)
    requires |a| <= |b|
    ensures a + (":" + x) == b + (":" + y) <==> (a == b && x == y) || Shifted(a, x, b, y)
  {
    var s, t := a + (":" + x), b + (":" + y);
    if s == t {
      var n := |a|;
      assert s[..n] == a && t[..n] == b[..n] && s[n] == ':';
      assert s[n + 1..] == x && t[|b| + 1..] == y;
      if n < |b| {
        var m := b[n + 1..];
        assert t[n] == b[n] && t[n + 1..] == m + (":" + y);
        assert b == a + (":" + m);
      }
    }
    if Shifted(a, x, b, y) {
      var m :| b == a + (":" + m) && x == m + (":" + y);
      assert s == a + (":" + (m + (":" + y))) == t;
    }
  }

  /** The names tell the kinds apart at their fifth letter. */
  lemma NamesDiffer(k: WorkflowKind, k': WorkflowKind)
    ensures |GateName(k)| > 4 && |WriteName(k)| > 4
    ensures GateName(k)[4] == GateName(k')[4] <==> k == k'
    ensures WriteName(k)[4] == WriteName(k')[4] <==> k == k'
  {
    assert GateName(Supplier)[4] == 's' && GateName(Invoice)[4] == 'i';
    assert WriteName(Supplier)[4] == 'v' && WriteName(Invoice)[4] == 'i';
  }

  lemma SharedNamedKeyIff(n: string, c: string, e: string, n': string, c': string, e': string)
    requires n == n' || (|n| > 4 && |n'| > 4 && n[4] != n'[4])
    ensures Key(n, c, e) == Key(n', c', e')
            <==> n == n' && ((c == c' && e == e') || Shifted(c, e, c', e') || Shifted(c', e', c, e))
  {
    var rest, rest' := c + (":" + e), c' + (":" + e');
    var s, t := Key(n, c, e), Key(n', c', e');
    if n == n' {
      assert s[|n| + 1..] == rest && t[|n| + 1..] == rest';
    } else {
      assert s[4] == n[4] && t[4] == n'[4];
    }
    if |c| <= |c'| {
      ColonSplits(c, e, c', e');
      assert Shifted(c', e', c, e) ==> |c| > |c'|;
    } else {
      ColonSplits(c', e', c, e);
      assert Shifted(c, e, c', e') ==> |c| < |c'|;
    }
  }

  /**
   When two gates name one key, for any texts at all: they are of the same
   kind, and agree on case and evidence, or one case id is the other with a
   colon and a text added, which the other's evidence hash begins with.
   */
  lemma SharedKeyIff(k: WorkflowKind, c: string, e: string, k': WorkflowKind, c': string, e': string)
    ensures ErpKey(k, c, e) == ErpKey(k', c', e')
            <==> k == k' && ((c == c' && e == e') || Shifted(c, e, c', e') || Shifted(c', e', c, e))
  {
    NamesDiffer(k, k');
    SharedNamedKeyIff(GateName(k), c, e, GateName(k'), c', e');
  }

  /** What a hexadecimal digest consists of. */
  predicate IsHex(hash: string) {
    forall i :: 0 <= i < |hash| ==> '0' <= hash[i] <= '9' || 'a' <= hash[i] <= 'f'
  }

  lemma HexIsNotShifted(c: string, e: string, longer: string, rest: string)
    requires IsHex(e)
    ensures !Shifted(c, e, longer, rest)
  {
    forall m ensures e != m + (":" + rest) {
      var shifted := m + (":" + rest);
      assert shifted[|m|] == ':';
    }
  }

  /**
   Evidence hashes are hexadecimal digests, so two gates name one key, and two
   workers send one key, exactly when kind, case and evidence agree, whatever
   the case ids are.
   */
  lemma KeysDistinguishWrites(k: WorkflowKind, c: string, e: string, k': WorkflowKind, c': string, e': string)
    requires IsHex(e) && IsHex(e')
    ensures ErpKey(k, c, e) == ErpKey(k', c', e') <==> k == k' && c == c' && e == e'
    ensures WriteKey(k, c, e) == WriteKey(k', c', e') <==> k == k' && c == c' && e == e'
  {
    NamesDiffer(k, k');
    SharedNamedKeyIff(GateName(k), c, e, GateName(k'), c', e');
    SharedNamedKeyIff(WriteName(k), c, e, WriteName(k'), c', e');
    HexIsNotShifted(c, e, c', e');
    HexIsNotShifted(c', e', c, e);
  }

  /** A worker's write: the case and evidence it is for, and what it sends. */
  datatype Write<P> = Write(caseId: string, evidenceHash: string, body: P)

  /** The requests that the writes of one kind make. */
  function Sent<P>(kind: WorkflowKind, writes: seq<Write<P>>): seq<Request<P>> {
    seq(|writes|, i requires 0 <= i < |writes| =>
      Request(WriteKey(kind, writes[i].caseId, writes[i].evidenceHash), writes[i].body))
  }

  predicate SameDecision<P>(a: Write<P>, b: Write<P>) {
    a.caseId == b.caseId && a.evidenceHash == b.evidenceHash
  }

  /** Write `i` is the first for its case and evidence. */
  predicate IsFirstWrite<P>(writes: seq<Write<P>>, i: nat)
    requires i < |writes|
  {
    forall j :: 0 <= j < i ==> !SameDecision(writes[j], writes[i])
  }

  lemma SentKeys<P>(kind: WorkflowKind, writes: seq<Write<P>>, i: nat, j: nat)
    requires i < |writes| && j < |writes| && IsHex(writes[i].evidenceHash) && IsHex(writes[j].evidenceHash)
    ensures Sent(kind, writes)[i].key != ""
    ensures Sent(kind, writes)[i].key == Sent(kind, writes)[j].key <==> SameDecision(writes[i], writes[j])
  {
    KeysDistinguishWrites(kind, writes[i].caseId, writes[i].evidenceHash,
                          kind, writes[j].caseId, writes[j].evidenceHash);
  }

  /**
   However often and in whatever order the writes of one kind are sent, the
   first for a case and its evidence is new in the ERP, and every later one is
   a replay of it if it says the same, and refused if it does not.
   */
  lemma OneWriteEach<P(!new)>(kind: WorkflowKind, writes: seq<Write<P>>, i: nat, j: nat, idOf: string -> string)
    requires i <= j < |writes| && forall m :: 0 <= m < |writes| ==> IsHex(writes[m].evidenceHash)
    requires IsFirstWrite(writes, i) && SameDecision(writes[i], writes[j])
    ensures AnswerAt(Sent(kind, writes), j, idOf)
            == (var id := idOf(WriteKey(kind, writes[j].caseId, writes[j].evidenceHash));
                if j == i then Accepted(id, false)
                else if writes[j].body == writes[i].body then Accepted(id, true)
                else IDEMPOTENCY_KEY_REUSED)
  {
    hide AnswerAt, WriteKey;
    var sent := Sent(kind, writes);
    forall m | 0 <= m < i ensures sent[m].key != sent[i].key {
      SentKeys(kind, writes, m, i);
    }
    SentKeys(kind, writes, i, j);
    assert IsFirst(sent, i);
    AnswersByFirst(sent, i, j, idOf);
  }
}
