/** types/src/token.rs: the binary form of token accounts and of token metadata. */
module TokenCodec {
  import opened Prelude
  import opened Bytes

  /** A public key as the number its 32 bytes spell; ordering numbers orders the byte strings. */
  type Key = k: nat | k < Pow256(32) witness 0

  datatype Entry = Entry(spender: Key, amount: u64)

  /** What the codec cannot decide by itself: which 32 bytes are curve points, which bytes are UTF-8. */
  datatype Env = Env(validKey: Key -> bool, utf8: Buf -> bool)

  /******* Ordered maps *******/

  /** A `BTreeMap` is its entries in ascending key order. */
  ghost predicate Ascending(es: seq<Entry>) {
    forall i, j :: 0 <= i < j < |es| ==> es[i].spender < es[j].spender
  }

  function Insert(es: seq<Entry>, e: Entry): seq<Entry> {
    if es == [] then [e] else
      var n := |es| - 1;
      if es[n].spender < e.spender then es + [e]
      else if es[n].spender == e.spender then es[n := e]
      else Insert(es[..n], e) + [es[n]]
  }

  function Lookup(es: seq<Entry>, spender: Key): Option<u64> {
    if es == [] then None
    else if es[|es| - 1].spender == spender then Some(es[|es| - 1].amount)
    else Lookup(es[..|es| - 1], spender)
  }

  function Inserted(es: seq<Entry>): seq<Entry> {
    if es == [] then [] else Insert(Inserted(es[..|es| - 1]), es[|es| - 1])
  }

  lemma {:induction false} InsertIsUpdate(es: seq<Entry>, e: Entry)
    requires Ascending(es)
    ensures Ascending(Insert(es, e)) && |Insert(es, e)| <= |es| + 1
    ensures forall x :: x in Insert(es, e) <==> x == e || (x in es && x.spender != e.spender)
  {
    if es != [] {
      var n := |es| - 1;
      assert es == es[..n] + [es[n]];
      if es[n].spender > e.spender {
        InsertIsUpdate(es[..n], e);
        var front := Insert(es[..n], e);
        forall i | 0 <= i < |front|
          ensures front[i].spender < es[n].spender
        {
          assert front[i] in front;
        }
      } else if es[n].spender == e.spender {
        assert es[n := e] == es[..n] + [e];
      }
    }
  }

  lemma {:induction false} LookupIsEntry(es: seq<Entry>, spender: Key)
    requires Ascending(es)
    ensures match Lookup(es, spender)
            case Some(amount) => Entry(spender, amount) in es
            case None => forall x :: x in es ==> x.spender != spender
    ensures forall x :: x in es && x.spender == spender ==> Lookup(es, spender) == Some(x.amount)
  {
    if es != [] {
      assert es == es[..|es| - 1] + [es[|es| - 1]];
      LookupIsEntry(es[..|es| - 1], spender);
    }
  }

  /** An account allows a spender the amount of its entry, and without one nothing. */
  lemma AllowanceIsEntry(x: Account, spender: Key)
    requires Ascending(x.allowances)
    ensures forall e :: e in x.allowances && e.spender == spender ==> x.Allowance(spender) == e.amount
    ensures (forall e :: e in x.allowances ==> e.spender != spender) ==> x.Allowance(spender) == 0
  {
    LookupIsEntry(x.allowances, spender);
  }

  lemma LookupAfterInsert(es: seq<Entry>, e: Entry, spender: Key)
    requires Ascending(es)
    ensures Lookup(Insert(es, e), spender) == if spender == e.spender then Some(e.amount) else Lookup(es, spender)
  {
    InsertIsUpdate(es, e);
    LookupIsEntry(Insert(es, e), spender);
    LookupIsEntry(es, spender);
    assert e in Insert(es, e);
  }

  lemma {:induction false} InsertedAscends(es: seq<Entry>)
    ensures Ascending(Inserted(es)) && |Inserted(es)| <= |es|
    ensures forall x :: x in Inserted(es) ==> x in es
  {
    if es != [] {
      InsertedAscends(es[..|es| - 1]);
      InsertIsUpdate(Inserted(es[..|es| - 1]), es[|es| - 1]);
    }
  }

  /** Of several entries for a key, the last one stays. */
  lemma {:induction false} LastDuplicateWins(es: seq<Entry>, spender: Key)
    ensures Lookup(Inserted(es), spender) == Lookup(es, spender)
  {
    if es != [] {
      var n := |es| - 1;
      LastDuplicateWins(es[..n], spender);
      InsertedAscends(es[..n]);
      LookupAfterInsert(Inserted(es[..n]), es[n], spender);
    }
  }

  lemma {:induction false} AscendingIsItsOwnMap(es: seq<Entry>)
    requires Ascending(es)
    ensures Inserted(es) == es
  {
    if es != [] {
      AscendingIsItsOwnMap(es[..|es| - 1]);
    }
  }

  ghost predicate SameLookups(a: seq<Entry>, b: seq<Entry>) {
    forall k :: Lookup(a, k) == Lookup(b, k)
  }

  /** An ordered map has one form: the same answers to every lookup mean the same entries. */
  lemma {:induction false} SameLookupsSameMap(a: seq<Entry>, b: seq<Entry>)
    requires Ascending(a) && Ascending(b) && SameLookups(a, b)
    ensures a == b
  {
    if a == [] || b == [] {
      if a == [] { EmptyAlike(a, b); } else { EmptyAlike(b, a); }
    } else {
      SameLast(a, b);
      FrontsAlike(a, b);
      SameLookupsSameMap(a[..|a| - 1], b[..|b| - 1]);
    }
  }

  lemma EmptyAlike(a: seq<Entry>, b: seq<Entry>)
    requires SameLookups(a, b) && a == []
    ensures b == []
  {
    assert |b| > 0 ==> Lookup(a, b[|b| - 1].spender) == Lookup(b, b[|b| - 1].spender);
  }

  lemma FrontsAlike(a: seq<Entry>, b: seq<Entry>)
    requires Ascending(a) && Ascending(b) && SameLookups(a, b)
    requires a != [] && b != [] && a[|a| - 1] == b[|b| - 1]
    ensures SameLookups(a[..|a| - 1], b[..|b| - 1])
  {
    var c, d := a[..|a| - 1], b[..|b| - 1];
    forall k: Key
      ensures Lookup(c, k) == Lookup(d, k)
    {
      LookupFront(a, k);
      LookupFront(b, k);
    }
  }

  lemma SameLast(a: seq<Entry>, b: seq<Entry>)
    requires Ascending(a) && Ascending(b) && SameLookups(a, b) && a != [] && b != []
    ensures a[|a| - 1] == b[|b| - 1]
  {
    var x, y := a[|a| - 1], b[|b| - 1];
    assert Lookup(a, x.spender) == Some(x.amount) && Lookup(b, y.spender) == Some(y.amount);
    LookupIsEntry(b, x.spender);
    LookupIsEntry(a, y.spender);
  }

  lemma LookupFront(es: seq<Entry>, k: Key)
    requires Ascending(es) && es != []
    ensures Lookup(es[..|es| - 1], k) == if k == es[|es| - 1].spender then None else Lookup(es, k)
  {
    LookupIsEntry(es[..|es| - 1], k);
  }

  /******* Token accounts *******/

  datatype Account = Account(balance: u64, frozen: bool, allowances: seq<Entry>) {
    function Allowance(spender: Key): u64 {
      var found := Lookup(allowances, spender);
      if found.Some? then found.value else 0
    }

    function SetAllowance(spender: Key, amount: u64): Account {
      this.(allowances := Insert(allowances, Entry(spender, amount)))
    }
  }

  ghost predicate WellFormed(env: Env, x: Account) {
    Ascending(x.allowances) && AllValid(env, x.allowances)
  }

  ghost predicate AllValid(env: Env, es: seq<Entry>) {
    forall e :: e in es ==> env.validKey(e.spender)
  }

  function EntryBytes(e: Entry): Buf {
    Be(e.spender, 32) + Be(e.amount, 8)
  }

  function EntriesBytes(es: seq<Entry>): (r: Buf)
    ensures |r| == 40 * |es|
  {
    if es == [] then [] else EntriesBytes(es[..|es| - 1]) + EntryBytes(es[|es| - 1])
  }

  /** The number of allowances is cut to 32 bits. */
  function Encode(x: Account): (r: Buf)
    ensures |r| == EncodeSize(x)
  {
    HeaderBytes(Header(x.balance, x.frozen, |x.allowances| % U32_LIMIT)) + EntriesBytes(x.allowances)
  }

  datatype Header = Header(balance: u64, frozen: bool, count: nat)

  function HeaderBytes(h: Header): (r: Buf)
    ensures |r| == 13
  {
    Be(h.balance, 8) + (BoolByte(h.frozen) + Be(h.count, 4))
  }

  function ReadHeader(bs: Buf): (r: Result<Read<Header>, Error>)
    ensures r.Ok? ==> r.value.value.count < U32_LIMIT
  {
    Widths();
    match ReadInt(bs, 8)
    case Err(e) => Err(e)
    case Ok(balance) =>
      match ReadBool(balance.rest)
      case Err(e) => Err(e)
      case Ok(frozen) =>
        match ReadInt(frozen.rest, 4)
        case Err(e) => Err(e)
        case Ok(count) => Ok(Read(Header(balance.value, frozen.value, count.value), count.rest))
  }

  function EncodeSize(x: Account): nat {
    8 + 1 + 4 + |x.allowances| * (32 + 8)
  }

  function ReadEntry(env: Env, bs: Buf): Result<Read<Entry>, Error> {
    match ReadInt(bs, 32)
    case Err(e) => Err(e)
    case Ok(key) =>
      if !env.validKey(key.value) then Err(InvalidKey)
      else
        match ReadInt(key.rest, 8)
        case Err(e) => Err(e)
        case Ok(amount) => Widths(); Ok(Read(Entry(key.value, amount.value), amount.rest))
  }

  /** The entries as they stand in the buffer, duplicates and order included. */
  function ReadEntries(env: Env, bs: Buf, count: nat): (r: Result<Read<seq<Entry>>, Error>)
    ensures r.Ok? ==> |r.value.value| == count
  {
    if count == 0 then Ok(Read([], bs))
    else
      match ReadEntries(env, bs, count - 1)
      case Err(e) => Err(e)
      case Ok(front) =>
        match ReadEntry(env, front.rest)
        case Err(e) => Err(e)
        case Ok(last) => Ok(Read(front.value + [last.value], last.rest))
  }

  /** The parts of an account as they stand in the buffer. */
  datatype Wire = Wire(balance: u64, frozen: bool, entries: seq<Entry>)

  function ReadWire(env: Env, bs: Buf): (r: Result<Read<Wire>, Error>)
    ensures r.Ok? ==> |r.value.value.entries| < U32_LIMIT
  {
    match ReadHeader(bs)
    case Err(e) => Err(e)
    case Ok(header) =>
      match ReadEntries(env, header.rest, header.value.count)
      case Err(e) => Err(e)
      case Ok(entries) => Ok(Read(Wire(header.value.balance, header.value.frozen, entries.value), entries.rest))
  }

  function FromWire(w: Wire): Account {
    Account(w.balance, w.frozen, Inserted(w.entries))
  }

  function WireOf(x: Account): (w: Wire)
    ensures WireBytes(w) == Encode(x)
  {
    Wire(x.balance, x.frozen, x.allowances)
  }

  function HeaderOf(w: Wire): Header {
    Header(w.balance, w.frozen, |w.entries| % U32_LIMIT)
  }

  function WireBytes(w: Wire): Buf {
    HeaderBytes(HeaderOf(w)) + EntriesBytes(w.entries)
  }

  function ReadAccount(env: Env, bs: Buf): Result<Read<Account>, Error> {
    var r := ReadWire(env, bs);
    if r.Err? then Err(r.error) else Ok(Read(FromWire(r.value.value), r.value.rest))
  }

  function Decode(env: Env, bs: Buf): Result<Account, Error> {
    Whole(ReadAccount(env, bs))
  }

  method WriteAccount(x: Account) returns (out: Buf)
    ensures out == Encode(x) && |out| == EncodeSize(x)
  {
    out := Be(x.balance, 8) + (BoolByte(x.frozen) + Be(|x.allowances| % U32_LIMIT, 4));
    ghost var header := out;
    for i := 0 to |x.allowances|
      invariant out == header + EntriesBytes(x.allowances[..i])
    {
      assert x.allowances[..i + 1][..i] == x.allowances[..i];
      var e := x.allowances[i];
      out := out + Be(e.spender, 32);
      out := out + Be(e.amount, 8);
      assert header + EntriesBytes(x.allowances[..i]) + Be(e.spender, 32) + Be(e.amount, 8)
          == header + (EntriesBytes(x.allowances[..i]) + EntryBytes(e));
    }
    assert x.allowances[..|x.allowances|] == x.allowances;
  }

  method ReadOneEntry(env: Env, reader: Reader) returns (r: Result<Entry, Error>)
    modifies reader
    ensures
      match ReadEntry(env, old(reader.rest))
      case Ok(read) => r == Ok(read.value) && reader.rest == read.rest
      case Err(e) => r == Err(e)
  {
    var spender := reader.Int(32);
    if spender.Err? {
      return Err(spender.error);
    }
    if !env.validKey(spender.value) {
      return Err(InvalidKey);
    }
    var amount := reader.Int(8);
    if amount.Err? {
      return Err(amount.error);
    }
    Widths();
    r := Ok(Entry(spender.value, amount.value));
  }

  lemma {:induction false} ErrorStays(env: Env, bs: Buf, k: nat, count: nat)
    requires k <= count && ReadEntries(env, bs, k).Err?
    ensures ReadEntries(env, bs, count) == ReadEntries(env, bs, k)
    decreases count
  {
    if k < count {
      ErrorStays(env, bs, k, count - 1);
    }
  }

  method ReadAllowances(env: Env, reader: Reader, count: nat) returns (r: Result<seq<Entry>, Error>)
    modifies reader
    ensures
      match ReadEntries(env, old(reader.rest), count)
      case Ok(read) => r == Ok(Inserted(read.value)) && reader.rest == read.rest
      case Err(e) => r == Err(e)
  {
    var allowances := [];
    ghost var start := reader.rest;
    for i := 0 to count
      invariant ReadEntries(env, start, i).Ok?
      invariant allowances == Inserted(ReadEntries(env, start, i).value.value)
      invariant reader.rest == ReadEntries(env, start, i).value.rest
    {
      var entry := ReadOneEntry(env, reader);
      if entry.Err? {
        ErrorStays(env, start, i + 1, count);
        return Err(entry.error);
      }
      ghost var front := ReadEntries(env, start, i).value.value;
      assert (front + [entry.value])[..|front|] == front;
      allowances := Insert(allowances, entry.value);
    }
    r := Ok(allowances);
  }

  method ReadTokenAccount(env: Env, reader: Reader) returns (r: Result<Account, Error>)
    modifies reader
    ensures
      match ReadAccount(env, old(reader.rest))
      case Ok(read) => r == Ok(read.value) && reader.rest == read.rest
      case Err(e) => r == Err(e)
  {
    Widths();
    var balance := reader.Int(8);
    if balance.Err? {
      return Err(balance.error);
    }
    var frozen := reader.Bool();
    if frozen.Err? {
      return Err(frozen.error);
    }
    var count := reader.Int(4);
    if count.Err? {
      return Err(count.error);
    }
    var allowances := ReadAllowances(env, reader, count.value);
    if allowances.Err? {
      return Err(allowances.error);
    }
    r := Ok(Account(balance.value, frozen.value, allowances.value));
  }

  /******* Round trips *******/

  lemma ReadsEntry(env: Env, e: Entry, rest: Buf)
    requires env.validKey(e.spender)
    ensures ReadEntry(env, EntryBytes(e) + rest) == Ok(Read(e, rest))
  {
    Widths();
    assert EntryBytes(e) + rest == Be(e.spender, 32) + (Be(e.amount, 8) + rest);
    ReadsInt(e.spender, 32, Be(e.amount, 8) + rest);
    ReadsInt(e.amount, 8, rest);
  }

  lemma {:induction false} ReadsEntries(env: Env, es: seq<Entry>, rest: Buf)
    requires AllValid(env, es)
    ensures ReadEntries(env, EntriesBytes(es) + rest, |es|) == Ok(Read(es, rest))
  {
    if es == [] {
      assert EntriesBytes(es) + rest == rest;
    } else {
      var front, last := es[..|es| - 1], es[|es| - 1];
      assert EntriesBytes(es) + rest == EntriesBytes(front) + (EntryBytes(last) + rest);
      ReadsEntries(env, front, EntryBytes(last) + rest);
      ReadsEntry(env, last, rest);
      assert front + [last] == es;
    }
  }

  lemma CameFromEntry(env: Env, bs: Buf)
    requires ReadEntry(env, bs).Ok?
    ensures
      var read := ReadEntry(env, bs).value;
      bs == EntryBytes(read.value) + read.rest && env.validKey(read.value.spender)
  {
    CameFromInt(bs, 32);
    CameFromInt(ReadInt(bs, 32).value.rest, 8);
    var read := ReadEntry(env, bs).value;
    assert Be(read.value.spender, 32) + (Be(read.value.amount, 8) + read.rest) == EntryBytes(read.value) + read.rest;
  }

  lemma {:induction false} CameFromEntries(env: Env, bs: Buf, count: nat)
    requires ReadEntries(env, bs, count).Ok?
    ensures
      var read := ReadEntries(env, bs, count).value;
      bs == EntriesBytes(read.value) + read.rest && AllValid(env, read.value)
  {
    if count > 0 {
      CameFromEntries(env, bs, count - 1);
      var front := ReadEntries(env, bs, count - 1).value;
      CameFromEntry(env, front.rest);
      var last := ReadEntry(env, front.rest).value;
      OneMoreEntry(front.value, last.value);
      Joins(bs, EntriesBytes(front.value), front.rest, EntryBytes(last.value), last.rest);
    }
  }

  lemma OneMoreEntry(es: seq<Entry>, e: Entry)
    ensures EntriesBytes(es + [e]) == EntriesBytes(es) + EntryBytes(e)
  {
    assert (es + [e])[..|es|] == es;
  }

  lemma Joins(bs: Buf, a: Buf, middle: Buf, b: Buf, rest: Buf)
    requires bs == a + middle && middle == b + rest
    ensures bs == (a + b) + rest
  {
  }

  lemma ReadsHeader(h: Header, rest: Buf)
    requires h.count < U32_LIMIT
    ensures ReadHeader(HeaderBytes(h) + rest) == Ok(Read(h, rest))
  {
    Widths();
    var tail := Be(h.count, 4) + rest;
    assert HeaderBytes(h) + rest == Be(h.balance, 8) + (BoolByte(h.frozen) + tail);
    ReadsInt(h.balance, 8, BoolByte(h.frozen) + tail);
    ReadsBool(h.frozen, tail);
    ReadsInt(h.count, 4, rest);
  }

  lemma CameFromHeader(bs: Buf)
    requires ReadHeader(bs).Ok?
    ensures bs == HeaderBytes(ReadHeader(bs).value.value) + ReadHeader(bs).value.rest
  {
    CameFromInt(bs, 8);
    var balance := ReadInt(bs, 8).value;
    CameFromBool(balance.rest);
    var frozen := ReadBool(balance.rest).value;
    CameFromInt(frozen.rest, 4);
    var h, rest := ReadHeader(bs).value.value, ReadHeader(bs).value.rest;
    assert Be(h.balance, 8) + (BoolByte(h.frozen) + (Be(h.count, 4) + rest)) == HeaderBytes(h) + rest;
  }

  lemma Regroup(a: Buf, b: Buf, c: Buf)
    ensures a + (b + c) == (a + b) + c
  {
  }

  /** Whatever wire form is written, reading takes `count mod 2^32` entries and leaves the others. */
  lemma ReadsWire(env: Env, w: Wire, rest: Buf)
    requires AllValid(env, w.entries)
    ensures
      var n := |w.entries| % U32_LIMIT;
      n <= |w.entries|
      && ReadWire(env, WireBytes(w) + rest) ==
           Ok(Read(w.(entries := w.entries[..n]), EntriesBytes(w.entries[n..]) + rest))
  {
    var n := |w.entries| % U32_LIMIT;
    var tail := EntriesBytes(w.entries[n..]) + rest;
    EntriesSplit(w.entries, n);
    var body := EntriesBytes(w.entries[..n]) + tail;
    assert WireBytes(w) + rest == HeaderBytes(HeaderOf(w)) + body;
    ReadsHeader(HeaderOf(w), body);
    ReadsEntries(env, w.entries[..n], tail);
  }

  lemma ReadsWholeWire(env: Env, w: Wire)
    requires AllValid(env, w.entries) && |w.entries| < U32_LIMIT
    ensures ReadWire(env, WireBytes(w)) == Ok(Read(w, []))
  {
    var h, body := HeaderOf(w), EntriesBytes(w.entries);
    CountFits(w);
    ReadsHeader(h, body);
    ReadsAllEntries(env, w.entries);
    ReadsParts(env, HeaderBytes(h) + body, h, body, w.entries, []);
  }

  lemma CountFits(w: Wire)
    requires |w.entries| < U32_LIMIT
    ensures HeaderOf(w).count == |w.entries|
  {
  }

  lemma ReadsAllEntries(env: Env, es: seq<Entry>)
    requires AllValid(env, es)
    ensures ReadEntries(env, EntriesBytes(es), |es|) == Ok(Read(es, []))
  {
    ReadsEntries(env, es, []);
    assert EntriesBytes(es) + [] == EntriesBytes(es);
  }

  lemma ReadsParts(env: Env, bs: Buf, h: Header, body: Buf, es: seq<Entry>, rest: Buf)
    requires ReadHeader(bs) == Ok(Read(h, body)) && ReadEntries(env, body, h.count) == Ok(Read(es, rest))
    ensures ReadWire(env, bs) == Ok(Read(Wire(h.balance, h.frozen, es), rest))
  {
  }

  lemma {:induction false} EntriesSplit(es: seq<Entry>, n: nat)
    requires n <= |es|
    ensures EntriesBytes(es) == EntriesBytes(es[..n]) + EntriesBytes(es[n..])
  {
    if n == |es| {
      assert es[..n] == es;
    } else {
      var m := |es| - 1;
      EntriesSplit(es[..m], n);
      assert es[..m][..n] == es[..n] && es[..m][n..] == es[n..][..m - n];
    }
  }

  /** The bytes of the entries that reading leaves. */
  function LeftOver(count: nat): nat {
    40 * (count - count % U32_LIMIT)
  }

  lemma LeavesBytesOver(env: Env, w: Wire)
    requires AllValid(env, w.entries) && |w.entries| >= U32_LIMIT
    ensures
      var r := ReadWire(env, WireBytes(w));
      r.Ok? && |r.value.rest| == LeftOver(|w.entries|) && r.value.rest != []
  {
    var n := |w.entries| % U32_LIMIT;
    ReadsWire(env, w, []);
    assert WireBytes(w) + [] == WireBytes(w);
    assert EntriesBytes(w.entries[n..]) + [] == EntriesBytes(w.entries[n..]);
  }

  lemma TooManyAreRejected(env: Env, x: Account)
    requires WellFormed(env, x) && |x.allowances| >= U32_LIMIT
    ensures Decode(env, Encode(x)) == Err(ExtraData(LeftOver(|x.allowances|)))
  {
    LeavesBytesOver(env, WireOf(x));
    DecodesPart(env, Encode(x));
  }

  lemma RoundTrips(env: Env, x: Account)
    requires WellFormed(env, x) && |x.allowances| < U32_LIMIT
    ensures Decode(env, Encode(x)) == Ok(x)
  {
    ReadsWholeWire(env, WireOf(x));
    AscendingIsItsOwnMap(x.allowances);
    DecodesWhole(env, Encode(x), WireOf(x));
  }

  /** Decoding what was encoded gives the account back exactly when it has fewer than 2^32 allowances;
      with more, the reader stops early and the decoder rejects the bytes left over. */
  lemma RoundTripIff(env: Env, x: Account)
    requires WellFormed(env, x)
    ensures Decode(env, Encode(x)) ==
              if |x.allowances| < U32_LIMIT then Ok(x) else Err(ExtraData(LeftOver(|x.allowances|)))
    ensures |Encode(x)| == EncodeSize(x)
  {
    if |x.allowances| < U32_LIMIT {
      RoundTrips(env, x);
    } else {
      TooManyAreRejected(env, x);
    }
  }

  lemma DecodesWhole(env: Env, bs: Buf, w: Wire)
    requires ReadWire(env, bs) == Ok(Read(w, []))
    ensures Decode(env, bs) == Ok(FromWire(w))
  {
  }

  lemma DecodesPart(env: Env, bs: Buf)
    requires ReadWire(env, bs).Ok? && ReadWire(env, bs).value.rest != []
    ensures Decode(env, bs) == Err(ExtraData(|ReadWire(env, bs).value.rest|))
  {
  }

  lemma CameFromWire(env: Env, bs: Buf)
    requires ReadWire(env, bs).Ok?
    ensures
      var read := ReadWire(env, bs).value;
      bs == WireBytes(read.value) + read.rest && AllValid(env, read.value.entries)
  {
    CameFromHeader(bs);
    var header := ReadHeader(bs).value;
    CameFromEntries(env, header.rest, header.value.count);
    var body := ReadEntries(env, header.rest, header.value.count).value;
    CountFits(ReadWire(env, bs).value.value);
    Joins(bs, HeaderBytes(header.value), header.rest, EntriesBytes(body.value), body.rest);
  }

  /** Whatever the decoder accepts means, for each spender, the last entry given for it; encoding the
      result gives canonical bytes that decode to the same account; and those are the bytes that came in
      exactly when the entries were in strictly ascending order. */
  lemma AcceptedBytesBecomeCanonical(env: Env, bs: Buf)
    requires Decode(env, bs).Ok?
    ensures
      var x, w := Decode(env, bs).value, ReadWire(env, bs).value.value;
      && WellFormed(env, x)
      && SameLookups(x.allowances, w.entries)
      && Decode(env, Encode(x)) == Ok(x)
      && (Encode(x) == bs <==> Ascending(w.entries))
  {
    var x, w := Decode(env, bs).value, ReadWire(env, bs).value.value;
    CameFromWire(env, bs);
    assert bs == WireBytes(w);
    InsertedAscends(w.entries);
    forall k: Key
      ensures Lookup(x.allowances, k) == Lookup(w.entries, k)
    {
      LastDuplicateWins(w.entries, k);
    }
    assert WellFormed(env, x);
    RoundTripIff(env, x);
    if Ascending(w.entries) {
      AscendingIsItsOwnMap(w.entries);
    }
    ReadsWholeWire(env, WireOf(x));
  }

  /** The account after a list of `set_allowance` calls. */
  function SetAll(x: Account, calls: seq<Entry>): Account {
    if calls == [] then x
    else
      var last := calls[|calls| - 1];
      SetAll(x, calls[..|calls| - 1]).SetAllowance(last.spender, last.amount)
  }

  /** A spender's allowance is the one set last, or the one from before. */
  lemma {:induction false} AllowanceIsLastSet(x: Account, calls: seq<Entry>, spender: Key)
    requires Ascending(x.allowances)
    ensures Ascending(SetAll(x, calls).allowances)
    ensures SetAll(x, calls).(allowances := []) == x.(allowances := [])
    ensures
      var given := Lookup(calls, spender);
      Lookup(SetAll(x, calls).allowances, spender) == (if given.Some? then given else Lookup(x.allowances, spender))
      && SetAll(x, calls).Allowance(spender) == (if given.Some? then given.value else x.Allowance(spender))
  {
    if calls != [] {
      var before, last := SetAll(x, calls[..|calls| - 1]), calls[|calls| - 1];
      AllowanceIsLastSet(x, calls[..|calls| - 1], spender);
      InsertIsUpdate(before.allowances, last);
      LookupAfterInsert(before.allowances, last, spender);
    }
  }

  /** The bytes depend only on what the map says, not on how it was built: two lists of `set_allowance`
      calls that agree on every spender's last amount give the same encoding. */
  lemma EncodingIgnoresInsertionOrder(x: Account, first: seq<Entry>, second: seq<Entry>)
    requires Ascending(x.allowances) && SameLookups(first, second)
    ensures Encode(SetAll(x, first)) == Encode(SetAll(x, second))
  {
    forall k: Key
      ensures Lookup(SetAll(x, first).allowances, k) == Lookup(SetAll(x, second).allowances, k)
    {
      AllowanceIsLastSet(x, first, k);
      AllowanceIsLastSet(x, second, k);
      assert Lookup(first, k) == Lookup(second, k);
    }
    AllowanceIsLastSet(x, first, 0);
    AllowanceIsLastSet(x, second, 0);
    SameLookupsSameMap(SetAll(x, first).allowances, SetAll(x, second).allowances);
    SameParts(SetAll(x, first), SetAll(x, second));
  }

  lemma SameParts(x: Account, y: Account)
    requires x.(allowances := []) == y.(allowances := []) && x.allowances == y.allowances
    ensures x == y
  {
  }
}
