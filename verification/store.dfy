/** The document store as the sync engine uses it: five collections, each a
    sequence of documents in insertion order, and the handful of requests the
    engine makes (estimated count, find sorted on one key with limit 1, find one
    by hash, group by one field, bulk insert, insert one, upsert by address).
    Which requests fail is a parameter of the store (`Faults`). */
module Store {
  import opened Wrappers
  import opened Bson

  datatype Coll = BlockColl | TransactionColl | ReceiptColl | TxInfoColl | StateColl

  /** The contents of the five collections. */
  datatype Tables = Tables(
    blocks: seq<Document>,
    transactions: seq<Document>,
    receipts: seq<Document>,
    txInfos: seq<Document>,
    states: seq<Document>)
  {
    function Get(c: Coll): seq<Document>
    {
      match c
      case BlockColl => blocks
      case TransactionColl => transactions
      case ReceiptColl => receipts
      case TxInfoColl => txInfos
      case StateColl => states
    }

    /** The tables after appending `docs` to collection `c`; the others are untouched. */
    function Append(c: Coll, docs: seq<Document>): (t: Tables)
      ensures t.Get(c) == Get(c) + docs
      ensures forall c' :: c' != c ==> t.Get(c') == Get(c')
    {
      match c
      case BlockColl => this.(blocks := blocks + docs)
      case TransactionColl => this.(transactions := transactions + docs)
      case ReceiptColl => this.(receipts := receipts + docs)
      case TxInfoColl => this.(txInfos := txInfos + docs)
      case StateColl => this.(states := states + docs)
    }
  }

  /** A request to the store, named by what it reads or writes. */
  datatype Request =
    | Count(c: Coll)           // EstimatedDocumentCount
    | Find(c: Coll)            // Find with sort and limit, then cursor.All
    | Aggregate(c: Coll)       // the $group pipeline and its cursor
    | FindHash(hash: string)   // FindOne({hash: ...}) on the transaction collection
    | Write(c: Coll)           // BulkWrite, InsertOne, UpdateOne
    | Index(c: Coll)           // Indexes().CreateOne

  function Target(q: Request): Coll
  {
    match q
    case Count(c) => c
    case Find(c) => c
    case Aggregate(c) => c
    case FindHash(_) => TransactionColl
    case Write(c) => c
    case Index(c) => c
  }

  /** Which requests the store rejects: `fails(q, n)` holds when request `q` fails
      while the collection it addresses holds `n` documents. */
  type Faults = (Request, nat) -> bool

  predicate Fails(f: Faults, t: Tables, q: Request)
  {
    f(q, |t.Get(Target(q))|)
  }

  /** Where a run of the engine stands: the store, and whether it has aborted. */
  datatype Run = Run(tables: Tables, outcome: Outcome)

  /** `BulkWrite` of `docs` into `c` (also `InsertOne`, with one document).
      An aborted run stays as it is. The driver rejects an empty list of write
      models, so a bulk write of nothing fails. A write is all or nothing. */
  function WriteMany(r: Run, f: Faults, c: Coll, docs: seq<Document>): (r': Run)
    ensures r.outcome.Aborted? ==> r' == r
    ensures r'.outcome.Completed? <==> r.outcome.Completed? && |docs| > 0 && !Fails(f, r.tables, Write(c))
    ensures r'.tables == if r'.outcome.Completed? then r.tables.Append(c, docs) else r.tables
  {
    if r.outcome.Aborted? then r
    else if |docs| == 0 || Fails(f, r.tables, Write(c)) then Run(r.tables, Aborted(StoreError))
    else Run(r.tables.Append(c, docs), Completed)
  }

  /** The sort keys of `docs` on `path`, in insertion order. */
  function Keys(docs: seq<Document>, path: seq<string>): (keys: seq<Value>)
    ensures |keys| == |docs|
    ensures forall i :: 0 <= i < |docs| ==> keys[i] == PathValue(docs[i], path)
  {
    seq(|docs|, i requires 0 <= i < |docs| => PathValue(docs[i], path))
  }

  /** The position that a stable descending sort puts first: a maximal key, the
      earliest among equal keys. */
  function TopKey(keys: seq<Value>): (r: nat)
    requires |keys| > 0
    ensures r < |keys|
    ensures forall i :: 0 <= i < |keys| ==> SortLe(keys[i], keys[r])
    ensures forall i :: 0 <= i < r ==> !SortLe(keys[r], keys[i])
    decreases |keys|
  {
    if |keys| == 1 then 0
    else
      var j := TopKey(keys[..|keys| - 1]);
      SortLeOrder();
      if SortLe(keys[|keys| - 1], keys[j]) then j else |keys| - 1
  }

  /** The document that a descending sort on `path` puts first: one whose key is
      maximal, the earliest inserted among equal keys. */
  function TopIndex(docs: seq<Document>, path: seq<string>): (r: nat)
    requires |docs| > 0
    ensures r < |docs|
    ensures forall i :: 0 <= i < |docs| ==> SortLe(PathValue(docs[i], path), PathValue(docs[r], path))
    ensures forall i :: 0 <= i < r ==> !SortLe(PathValue(docs[r], path), PathValue(docs[i], path))
  {
    TopKey(Keys(docs, path))
  }

  /** `Find({}, sort: {path: -1}, limit: 1)` followed by `cursor.All`. */
  function FindTop(t: Tables, f: Faults, c: Coll, path: seq<string>): (r: Result<Option<Document>>)
    ensures r.Err? <==> Fails(f, t, Find(c))
    ensures r.Ok? ==> (r.value.None? <==> |t.Get(c)| == 0)
    ensures r.Ok? && r.value.Some? ==> r.value.value == t.Get(c)[TopIndex(t.Get(c), path)]
    ensures r.Ok? && r.value.Some? ==>
      forall i :: 0 <= i < |t.Get(c)| ==> SortLe(PathValue(t.Get(c)[i], path), PathValue(r.value.value, path))
  {
    var docs := t.Get(c);
    if Fails(f, t, Find(c)) then Err(StoreError)
    else if |docs| == 0 then Ok(None)
    else Ok(Some(docs[TopIndex(docs, path)]))
  }

  /** The shared first half of the three `getLocalLatest...Block` functions: an
      estimated count (none for an empty collection), then the top document on `path`. */
  function LatestDoc(t: Tables, f: Faults, c: Coll, path: seq<string>): (r: Result<Option<Document>>)
    ensures r.Err? ==> r.why == StoreError
    ensures r.Ok? ==> (r.value.None? <==> |t.Get(c)| == 0)
    ensures r.Ok? && r.value.Some? ==> r.value.value == t.Get(c)[TopIndex(t.Get(c), path)]
  {
    if Fails(f, t, Count(c)) then Err(StoreError)
    else if |t.Get(c)| == 0 then Ok(None)
    else FindTop(t, f, c, path)
  }

  predicate HasHash(docs: seq<Document>, hash: string)
  {
    exists i :: 0 <= i < |docs| && Get(docs[i], "hash") == Str(hash)
  }

  datatype Lookup = Found | NoDocuments | LookupFailed

  /** `FindOne({hash: hash}).Err()` on the transaction collection: nil when a document
      with that hash exists, ErrNoDocuments when none does, another error when the
      request fails. */
  function FindByHash(t: Tables, f: Faults, hash: string): Lookup
  {
    if Fails(f, t, FindHash(hash)) then LookupFailed
    else if HasHash(t.transactions, hash) then Found
    else NoDocuments
  }

  /** The values of `field` in each document, null where it is missing. */
  function Column(docs: seq<Document>, field: string): (r: seq<Value>)
    ensures |r| == |docs| && forall i :: 0 <= i < |docs| ==> r[i] == Get(docs[i], field)
  {
    seq(|docs|, i requires 0 <= i < |docs| => Get(docs[i], field))
  }

  /** The `_id`s that `$group: {_id: "$field"}` yields: each distinct value once.
      The store does not fix their order; the model takes first-occurrence order. */
  function Distinct(vs: seq<Value>): (r: seq<Value>)
    ensures forall i, j :: 0 <= i < j < |r| ==> r[i] != r[j]
    ensures forall v :: v in r <==> v in vs
    decreases |vs|
  {
    if |vs| == 0 then []
    else
      var p := Distinct(vs[..|vs| - 1]);
      var v := vs[|vs| - 1];
      assert forall w :: w in vs <==> w in vs[..|vs| - 1] || w == v by {
        assert vs == vs[..|vs| - 1] + [v];
      }
      if v in p then p else p + [v]
  }

  /** The aggregation of one field of collection `c`. */
  function GroupKeys(t: Tables, f: Faults, c: Coll, field: string): (r: Result<seq<Value>>)
    ensures r.Ok? ==> forall v :: v in r.value <==> exists i :: 0 <= i < |t.Get(c)| && v == Get(t.Get(c)[i], field)
  {
    if Fails(f, t, Aggregate(c)) then Err(StoreError)
    else
      var col := Column(t.Get(c), field);
      assert forall v :: v in col <==> exists i :: 0 <= i < |t.Get(c)| && v == Get(t.Get(c)[i], field);
      Ok(Distinct(col))
  }

  /** The first document whose `address` is `addr`. */
  function FirstWithAddress(docs: seq<Document>, addr: string): (r: Option<nat>)
    ensures r.Some? ==> r.value < |docs| && Get(docs[r.value], "address") == Str(addr)
    ensures r.Some? ==> forall j :: 0 <= j < r.value ==> Get(docs[j], "address") != Str(addr)
    ensures r.None? ==> forall j :: 0 <= j < |docs| ==> Get(docs[j], "address") != Str(addr)
    decreases |docs|
  {
    if |docs| == 0 then None
    else if Get(docs[0], "address") == Str(addr) then Some(0)
    else match FirstWithAddress(docs[1..], addr)
      case None => None
      case Some(k) => Some(k + 1)
  }

  /** `UpdateOne({address: addr}, {$set: fields}, upsert: true)`: the first document with
      that address gets the fields of `fields`; if there is none, a new document made of
      the filter's `address` and the fields of `fields` is appended. */
  function Upsert(docs: seq<Document>, addr: string, fields: Document): seq<Document>
  {
    match FirstWithAddress(docs, addr)
    case None => docs + [map["address" := Str(addr)] + fields]
    case Some(i) => docs[i := docs[i] + fields]
  }

  /** No two documents share a (string) address. */
  ghost predicate UniqueAddresses(docs: seq<Document>)
  {
    forall i, j :: 0 <= i < j < |docs| && Get(docs[i], "address").Str? ==> Get(docs[i], "address") != Get(docs[j], "address")
  }

  /** Some document has address `addr`. */
  ghost predicate HasAddress(docs: seq<Document>, addr: string)
  {
    exists j :: 0 <= j < |docs| && Get(docs[j], "address") == Str(addr)
  }

  /** `d` holds every field of `fields` with its value. */
  ghost predicate Carries(d: Document, fields: Document)
  {
    forall k :: k in fields ==> k in d && d[k] == fields[k]
  }

  /** The store itself: collections the engine appends to and updates in place. */
  class Database {
    var blocks: seq<Document>
    var transactions: seq<Document>
    var receipts: seq<Document>
    var txInfos: seq<Document>
    var states: seq<Document>
    /** The requests this store rejects. */
    const fails: Faults

    constructor (fails: Faults)
      ensures Contents() == Tables([], [], [], [], []) && this.fails == fails
    {
      blocks, transactions, receipts, txInfos, states := [], [], [], [], [];
      this.fails := fails;
    }

    function Contents(): Tables
      reads this
    {
      Tables(blocks, transactions, receipts, txInfos, states)
    }

    method EstimatedDocumentCount(c: Coll) returns (r: Result<nat>)
      ensures r.Ok? <==> !Fails(fails, Contents(), Count(c))
      ensures r.Ok? ==> r.value == |Contents().Get(c)|
      ensures r.Err? ==> r.why == StoreError
    {
      if fails(Count(c), |Contents().Get(c)|) {
        return Err(StoreError);
      }
      return Ok(|Contents().Get(c)|);
    }

    method FindTopOne(c: Coll, path: seq<string>) returns (r: Result<Option<Document>>)
      ensures r == FindTop(Contents(), fails, c, path)
    {
      var docs := Contents().Get(c);
      if fails(Find(c), |docs|) {
        return Err(StoreError);
      }
      if |docs| == 0 {
        return Ok(None);
      }
      return Ok(Some(docs[TopIndex(docs, path)]));
    }

    method FindOneByHash(hash: string) returns (r: Lookup)
      ensures r == FindByHash(Contents(), fails, hash)
    {
      if fails(FindHash(hash), |transactions|) {
        return LookupFailed;
      }
      var i := 0;
      while i < |transactions|
        invariant 0 <= i <= |transactions|
        invariant forall j :: 0 <= j < i ==> Get(transactions[j], "hash") != Str(hash)
      {
        if Get(transactions[i], "hash") == Str(hash) {
          return Found;
        }
        i := i + 1;
      }
      return NoDocuments;
    }

    method GroupBy(c: Coll, field: string) returns (r: Result<seq<Value>>)
      ensures r == GroupKeys(Contents(), fails, c, field)
    {
      if fails(Aggregate(c), |Contents().Get(c)|) {
        return Err(StoreError);
      }
      return Ok(Distinct(Column(Contents().Get(c), field)));
    }

    /** `Indexes().CreateOne` on one field: it changes no document. */
    method CreateIndex(c: Coll, field: string) returns (ok: bool)
      ensures ok <==> !Fails(fails, Contents(), Index(c))
    {
      ok := !fails(Index(c), |Contents().Get(c)|);
    }

    method BulkWrite(c: Coll, docs: seq<Document>) returns (ok: bool)
      modifies this
      ensures Run(Contents(), if ok then Completed else Aborted(StoreError))
              == WriteMany(Run(old(Contents()), Completed), fails, c, docs)
    {
      if |docs| == 0 || fails(Write(c), |Contents().Get(c)|) {
        return false;
      }
      match c {
        case BlockColl => blocks := blocks + docs;
        case TransactionColl => transactions := transactions + docs;
        case ReceiptColl => receipts := receipts + docs;
        case TxInfoColl => txInfos := txInfos + docs;
        case StateColl => states := states + docs;
      }
      return true;
    }

    method InsertOne(c: Coll, doc: Document) returns (ok: bool)
      modifies this
      ensures Run(Contents(), if ok then Completed else Aborted(StoreError))
              == WriteMany(Run(old(Contents()), Completed), fails, c, [doc])
    {
      ok := BulkWrite(c, [doc]);
    }

    method UpdateOneUpsert(addr: string, fields: Document) returns (ok: bool)
      modifies this
      ensures ok == !Fails(fails, old(Contents()), Write(StateColl))
      ensures Contents() == if ok then old(Contents()).(states := Upsert(old(states), addr, fields)) else old(Contents())
    {
      if fails(Write(StateColl), |states|) {
        return false;
      }
      states := Upsert(states, addr, fields);
      return true;
    }
  }
}
