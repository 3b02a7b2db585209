/** Where each field of a token account or of token metadata stands in its bytes (types/src/token.rs:148-253,
    types/src/casino/codec.rs:3-8), and what becomes of bytes that go on for longer or are cut short. */
module WireLayout {
  import opened Prelude
  import opened Bytes
  import opened TokenCodec
  import opened MetadataCodec
  import Fixed

  /** The digit of `n` to the base 256 at place `k`, the lowest one at place zero. */
  function Digit(n: nat, k: nat): nat {
    n / Power(k) % 256
  }

  function Power(k: nat): (r: nat)
    ensures r > 0
  {
    if k == 0 then 1 else Power(k - 1) * 256
  }

  /** The field's bytes are the digits of `n`, the highest one first. */
  ghost predicate Spells(field: Buf, n: nat) {
    forall i :: 0 <= i < |field| ==> field[i] as int == Digit(n, |field| - 1 - i)
  }

  lemma {:induction false} IntSpells(n: nat, w: nat)
    ensures Spells(Be(n, w), n)
  {
    if w > 0 {
      IntSpells(n / 256, w - 1);
      forall i | 0 <= i < w
        ensures Be(n, w)[i] as int == Digit(n, w - 1 - i)
      {
        if i < w - 1 {
          assert Be(n, w)[i] == Be(n / 256, w - 1)[i];
          NextDigit(n, w - 2 - i);
        }
      }
    }
  }

  lemma NextDigit(n: nat, k: nat)
    ensures Digit(n / 256, k) == Digit(n, k + 1)
  {
    DivTwice(n, Power(k));
  }

  lemma DivTwice(n: nat, p: nat)
    requires p > 0
    ensures n / 256 / p == n / (p * 256)
  {
    var a := n / 256;
    var q := a / p;
    Fixed.DivBounds(a, p);
    Times256(p, q, a, n);
    Fixed.DivIs(n, p * 256, q);
  }

  lemma Times256(p: nat, q: nat, a: nat, n: nat)
    requires p * q <= a < p * q + p && a == n / 256
    ensures p * 256 * q <= n < p * 256 * q + p * 256
  {
    var pq := p * q;
    assert p * 256 * q == pq * 256;
  }

  /******* Token accounts *******/

  /** Eight bytes of balance, one of the frozen flag, four of the number of allowances modulo 2^32, and then
      for each allowance in order the 32 bytes of its spender and eight of its amount. */
  lemma AccountLayout(x: Account)
    ensures
      var bs, n := Encode(x), |x.allowances|;
      && |bs| == 13 + 40 * n
      && Spells(bs[..8], x.balance)
      && bs[8] == (if x.frozen then 1 else 0)
      && Spells(bs[9..13], n % 0x1_0000_0000)
      && (forall k {:trigger x.allowances[k]} :: 0 <= k < n ==>
            && Spells(bs[13 + 40 * k..45 + 40 * k], x.allowances[k].spender)
            && Spells(bs[45 + 40 * k..53 + 40 * k], x.allowances[k].amount))
  {
    var bs, n := Encode(x), |x.allowances|;
    var count := n % U32_LIMIT;
    HeaderInAccount(x);
    IntSpells(x.balance, 8);
    IntSpells(count, 4);
    forall k | 0 <= k < n
      ensures Spells(bs[13 + 40 * k..45 + 40 * k], x.allowances[k].spender)
      ensures Spells(bs[45 + 40 * k..53 + 40 * k], x.allowances[k].amount)
    {
      EntryAt(x.allowances, k);
      EntryInAccount(x, k);
      IntSpells(x.allowances[k].spender, 32);
      IntSpells(x.allowances[k].amount, 8);
    }
  }

  lemma HeaderInAccount(x: Account)
    ensures
      var bs := Encode(x);
      && |bs| == 13 + 40 * |x.allowances|
      && bs[..8] == Be(x.balance, 8) && bs[8..9] == BoolByte(x.frozen) && bs[9..13] == Be(|x.allowances| % U32_LIMIT, 4)
  {
  }

  lemma EntryInAccount(x: Account, k: nat)
    requires k < |x.allowances|
    ensures
      var bs, es := Encode(x), EntriesBytes(x.allowances);
      && |bs| == 13 + |es| && 40 * k + 40 <= |es|
      && bs[13 + 40 * k..45 + 40 * k] == es[40 * k..40 * k + 32]
      && bs[45 + 40 * k..53 + 40 * k] == es[40 * k + 32..40 * k + 40]
  {
    var header := HeaderBytes(Header(x.balance, x.frozen, |x.allowances| % U32_LIMIT));
    SuffixSlice(header, EntriesBytes(x.allowances), 40 * k, 40 * k + 32);
    SuffixSlice(header, EntriesBytes(x.allowances), 40 * k + 32, 40 * k + 40);
  }

  lemma SuffixSlice(front: Buf, tail: Buf, a: nat, b: nat)
    requires a <= b <= |tail|
    ensures (front + tail)[|front| + a..|front| + b] == tail[a..b]
  {
  }

  lemma {:induction false} EntryAt(es: seq<Entry>, k: nat)
    requires k < |es|
    ensures
      var bs := EntriesBytes(es);
      bs[40 * k..40 * k + 32] == Be(es[k].spender, 32) && bs[40 * k + 32..40 * k + 40] == Be(es[k].amount, 8)
  {
    var n := |es| - 1;
    var front := EntriesBytes(es[..n]);
    if k < n {
      EntryAt(es[..n], k);
      PrefixSlice(front, EntryBytes(es[n]), 40 * k, 40 * k + 32);
      PrefixSlice(front, EntryBytes(es[n]), 40 * k + 32, 40 * k + 40);
    } else {
      TwoFields(front, Be(es[n].spender, 32), Be(es[n].amount, 8));
    }
  }

  lemma PrefixSlice(front: Buf, tail: Buf, a: nat, b: nat)
    requires a <= b <= |front|
    ensures (front + tail)[a..b] == front[a..b]
  {
  }

  lemma TwoFields(front: Buf, a: Buf, b: Buf)
    ensures (front + (a + b))[|front|..|front| + |a|] == a
    ensures (front + (a + b))[|front| + |a|..|front| + |a| + |b|] == b
  {
  }

  /******* Token metadata *******/

  function Flag(b: bool): nat {
    if b then 1 else 0
  }

  /** A text in the field: its length modulo 2^32 in four bytes, then the text itself. */
  ghost predicate HoldsText(bs: Buf, at: nat, text: Buf) {
    at + 4 + |text| <= |bs| && Spells(bs[at..at + 4], |text| % 0x1_0000_0000) && bs[at + 4..at + 4 + |text|] == text
  }

  lemma TextBytes(before: Buf, text: Buf, after: Buf)
    ensures HoldsText(before + (StringBytes(text) + after), |before|, text)
  {
    var bs, at := before + (StringBytes(text) + after), |before|;
    IntSpells(|text| % U32_LIMIT, 4);
    assert bs[at..at + 4] == Be(|text| % U32_LIMIT, 4);
    assert bs[at + 4..at + 4 + |text|] == text;
  }

  /** The offsets of the parts after the name. */
  function SymbolAt(l: Labels): nat {
    4 + |l.name|
  }

  function DecimalsAt(l: Labels): nat {
    SymbolAt(l) + 4 + |l.symbol|
  }

  function SupplyAt(l: Labels): nat {
    DecimalsAt(l) + 2 + if l.iconUrl.Some? then 4 + |l.iconUrl.value| else 0
  }

  /** Name and symbol as texts, one byte of decimals, the icon as a flag and, if there is one, a text; then
      eight bytes of supply, two flags, and the 32 bytes of the authority. */
  lemma MetadataLayout(m: Metadata)
    ensures
      var bs, l := EncodeMetadata(m), m.labels;
      && |bs| == SupplyAt(l) + 42
      && HoldsText(bs, 0, l.name) && HoldsText(bs, SymbolAt(l), l.symbol)
      && bs[DecimalsAt(l)] == l.decimals && bs[DecimalsAt(l) + 1] == Flag(l.iconUrl.Some?)
      && (l.iconUrl.Some? ==> HoldsText(bs, DecimalsAt(l) + 2, l.iconUrl.value))
      && Spells(bs[SupplyAt(l)..SupplyAt(l) + 8], m.rights.totalSupply)
      && bs[SupplyAt(l) + 8] == Flag(m.rights.mintable) && bs[SupplyAt(l) + 9] == Flag(m.rights.burnable)
      && Spells(bs[SupplyAt(l) + 10..SupplyAt(l) + 42], m.rights.authority)
  {
    TextsAt(m.labels, RightsBytes(m.rights));
    IconAt(m.labels, RightsBytes(m.rights));
    RightsLayout(LabelsBytes(m.labels), m.rights);
    LabelsSize(m.labels);
    IntSpells(m.rights.totalSupply, 8);
    IntSpells(m.rights.authority, 32);
  }

  lemma LabelsSize(l: Labels)
    ensures |LabelsBytes(l)| == SupplyAt(l)
  {
  }

  lemma TextsAt(l: Labels, after: Buf)
    ensures HoldsText(LabelsBytes(l) + after, 0, l.name) && HoldsText(LabelsBytes(l) + after, SymbolAt(l), l.symbol)
  {
    var name, text, tail := StringBytes(l.name), StringBytes(l.symbol), Be(l.decimals, 1) + IconBytes(l.iconUrl);
    TextBytes([], l.name, text + tail + after);
    TextBytes(name, l.symbol, tail + after);
    Grouped(name, text, tail, after);
  }

  lemma Grouped(name: Buf, text: Buf, tail: Buf, after: Buf)
    ensures name + (text + tail) + after == [] + (name + (text + tail + after))
    ensures name + (text + tail) + after == name + (text + (tail + after))
    ensures name + (text + tail) + after == name + text + (tail + after)
  {
  }

  lemma IconAt(l: Labels, after: Buf)
    ensures
      var bs, at := LabelsBytes(l) + after, DecimalsAt(l);
      && at + 2 <= |bs| && bs[at] == l.decimals && bs[at + 1] == Flag(l.iconUrl.Some?)
      && (l.iconUrl.Some? ==> HoldsText(bs, at + 2, l.iconUrl.value))
  {
    var name, text := StringBytes(l.name), StringBytes(l.symbol);
    DecimalsAndIcon(name + text, l, after);
    Grouped(name, text, Be(l.decimals, 1) + IconBytes(l.iconUrl), after);
    Regroup(Be(l.decimals, 1), IconBytes(l.iconUrl), after);
  }

  lemma DecimalsAndIcon(before: Buf, l: Labels, after: Buf)
    ensures
      var bs, at := before + (Be(l.decimals, 1) + (IconBytes(l.iconUrl) + after)), |before|;
      && bs[at] == l.decimals && bs[at + 1] == Flag(l.iconUrl.Some?)
      && |IconBytes(l.iconUrl)| == (if l.iconUrl.Some? then 5 + |l.iconUrl.value| else 1)
      && (l.iconUrl.Some? ==> HoldsText(bs, at + 2, l.iconUrl.value))
  {
    var bs := before + (Be(l.decimals, 1) + (IconBytes(l.iconUrl) + after));
    assert Be(l.decimals, 1) == [l.decimals];
    if l.iconUrl.Some? {
      var head := before + [l.decimals, 1];
      TextBytes(head, l.iconUrl.value, after);
      assert bs == head + (StringBytes(l.iconUrl.value) + after);
    }
  }

  lemma RightsLayout(before: Buf, r: Rights)
    ensures
      var bs, at := before + RightsBytes(r), |before|;
      && bs[at..at + 8] == Be(r.totalSupply, 8) && bs[at + 8] == Flag(r.mintable) && bs[at + 9] == Flag(r.burnable)
      && bs[at + 10..at + 42] == Be(r.authority, 32)
  {
  }

  /******* More bytes, and fewer *******/

  /** With `more` bytes after them, the bytes that gave a value give it again and leave `more` over, and those
      that were rejected for anything but their length are rejected for the same. */
  ghost predicate Goes<T>(few: Result<Read<T>, Error>, many: Result<Read<T>, Error>, more: Buf) {
    match few
    case Ok(read) => many == Ok(Read(read.value, read.rest + more))
    case Err(e) => e == EndOfBuffer || many == Err(e)
  }

  lemma IntGoesOn(bs: Buf, w: nat, more: Buf)
    ensures Goes(ReadInt(bs, w), ReadInt(bs + more, w), more)
  {
    if |bs| >= w {
      assert (bs + more)[..w] == bs[..w] && (bs + more)[w..] == bs[w..] + more;
    }
  }

  lemma BoolGoesOn(bs: Buf, more: Buf)
    ensures Goes(ReadBool(bs), ReadBool(bs + more), more)
  {
    if bs != [] {
      assert (bs + more)[1..] == bs[1..] + more;
    }
  }

  lemma HeaderGoesOn(bs: Buf, more: Buf)
    ensures Goes(ReadHeader(bs), ReadHeader(bs + more), more)
  {
    IntGoesOn(bs, 8, more);
    if ReadInt(bs, 8).Ok? {
      var balance := ReadInt(bs, 8).value;
      BoolGoesOn(balance.rest, more);
      if ReadBool(balance.rest).Ok? {
        IntGoesOn(ReadBool(balance.rest).value.rest, 4, more);
      }
    }
  }

  lemma EntryGoesOn(env: Env, bs: Buf, more: Buf)
    ensures Goes(ReadEntry(env, bs), ReadEntry(env, bs + more), more)
  {
    IntGoesOn(bs, 32, more);
    if ReadInt(bs, 32).Ok? {
      IntGoesOn(ReadInt(bs, 32).value.rest, 8, more);
    }
  }

  lemma {:induction false} EntriesGoOn(env: Env, bs: Buf, count: nat, more: Buf)
    ensures Goes(ReadEntries(env, bs, count), ReadEntries(env, bs + more, count), more)
  {
    if count > 0 {
      EntriesGoOn(env, bs, count - 1, more);
      var front := ReadEntries(env, bs, count - 1);
      if front.Ok? {
        EntryGoesOn(env, front.value.rest, more);
      }
    }
  }

  lemma AccountGoesOn(env: Env, bs: Buf, more: Buf)
    ensures Goes(ReadAccount(env, bs), ReadAccount(env, bs + more), more)
  {
    HeaderGoesOn(bs, more);
    var header := ReadHeader(bs);
    if header.Ok? {
      EntriesGoOn(env, header.value.rest, header.value.value.count, more);
    }
  }

  /** Bytes that give a value with nothing left over give it only as a whole. */
  lemma OnlyAsAWhole<T>(few: Result<Read<T>, Error>, all: Result<Read<T>, Error>, missing: Buf)
    requires Goes(few, all, missing) && Whole(all).Ok? && missing != []
    ensures Whole(few) == Err(EndOfBuffer)
  {
  }

  lemma NothingAfter<T>(all: Result<Read<T>, Error>, longer: Result<Read<T>, Error>, extra: Buf)
    requires Goes(all, longer, extra) && Whole(all).Ok? && extra != []
    ensures Whole(longer) == Err(ExtraData(|extra|))
  {
  }

  lemma CutAt(bs: Buf, n: nat)
    requires n < |bs|
    ensures bs[..n] + bs[n..] == bs && bs[n..] != []
  {
  }

  /** Accepted bytes of an account cut short anywhere are found to miss their end, and bytes after them to be
      extra. */
  lemma AccountIsSelfDelimiting(env: Env, bs: Buf, n: nat, extra: Buf)
    requires Decode(env, bs).Ok? && extra != []
    ensures n < |bs| ==> Decode(env, bs[..n]) == Err(EndOfBuffer)
    ensures Decode(env, bs + extra) == Err(ExtraData(|extra|))
  {
    AccountGoesOn(env, bs, extra);
    NothingAfter(ReadAccount(env, bs), ReadAccount(env, bs + extra), extra);
    if n < |bs| {
      CutAt(bs, n);
      AccountGoesOn(env, bs[..n], bs[n..]);
      OnlyAsAWhole(ReadAccount(env, bs[..n]), ReadAccount(env, bs), bs[n..]);
    }
  }

  lemma StringGoesOn(env: Env, bs: Buf, max: nat, more: Buf)
    ensures Goes(ReadString(env, bs, max), ReadString(env, bs + more, max), more)
  {
    IntGoesOn(bs, 4, more);
    if ReadInt(bs, 4).Ok? {
      var len := ReadInt(bs, 4).value;
      if len.value <= |len.rest| {
        assert (len.rest + more)[..len.value] == len.rest[..len.value];
        assert (len.rest + more)[len.value..] == len.rest[len.value..] + more;
      }
    }
  }

  lemma IconGoesOn(env: Env, bs: Buf, more: Buf)
    ensures Goes(ReadIcon(env, bs), ReadIcon(env, bs + more), more)
  {
    BoolGoesOn(bs, more);
    if ReadBool(bs).Ok? && ReadBool(bs).value.value {
      StringGoesOn(env, ReadBool(bs).value.rest, MAX_ICON, more);
    }
  }

  lemma LabelsGoOn(env: Env, bs: Buf, more: Buf)
    ensures Goes(ReadLabels(env, bs), ReadLabels(env, bs + more), more)
  {
    StringGoesOn(env, bs, MAX_NAME, more);
    var name := ReadString(env, bs, MAX_NAME);
    if name.Ok? {
      StringGoesOn(env, name.value.rest, MAX_SYMBOL, more);
      var symbol := ReadString(env, name.value.rest, MAX_SYMBOL);
      if symbol.Ok? {
        IntGoesOn(symbol.value.rest, 1, more);
        var decimals := ReadInt(symbol.value.rest, 1);
        if decimals.Ok? {
          IconGoesOn(env, decimals.value.rest, more);
        }
      }
    }
  }

  lemma RightsGoOn(env: Env, bs: Buf, more: Buf)
    ensures Goes(ReadRights(env, bs), ReadRights(env, bs + more), more)
  {
    IntGoesOn(bs, 8, more);
    var supply := ReadInt(bs, 8);
    if supply.Ok? {
      BoolGoesOn(supply.value.rest, more);
      var mintable := ReadBool(supply.value.rest);
      if mintable.Ok? {
        BoolGoesOn(mintable.value.rest, more);
        var burnable := ReadBool(mintable.value.rest);
        if burnable.Ok? {
          IntGoesOn(burnable.value.rest, 32, more);
        }
      }
    }
  }

  lemma MetadataGoesOn(env: Env, bs: Buf, more: Buf)
    ensures Goes(ReadMetadata(env, bs), ReadMetadata(env, bs + more), more)
  {
    LabelsGoOn(env, bs, more);
    var labels := ReadLabels(env, bs);
    if labels.Ok? {
      RightsGoOn(env, labels.value.rest, more);
    }
  }

  /** Accepted metadata likewise: no shorter and no longer bytes are. */
  lemma MetadataIsSelfDelimiting(env: Env, bs: Buf, n: nat, extra: Buf)
    requires DecodeMetadata(env, bs).Ok? && extra != []
    ensures n < |bs| ==> DecodeMetadata(env, bs[..n]) == Err(EndOfBuffer)
    ensures DecodeMetadata(env, bs + extra) == Err(ExtraData(|extra|))
  {
    MetadataGoesOn(env, bs, extra);
    NothingAfter(ReadMetadata(env, bs), ReadMetadata(env, bs + extra), extra);
    if n < |bs| {
      CutAt(bs, n);
      MetadataGoesOn(env, bs[..n], bs[n..]);
      OnlyAsAWhole(ReadMetadata(env, bs[..n]), ReadMetadata(env, bs), bs[n..]);
    }
  }

  /******* What is rejected, and as what *******/

  lemma BadKeyIsReported(env: Env, e: Entry, rest: Buf)
    requires !env.validKey(e.spender)
    ensures ReadEntry(env, EntryBytes(e) + rest) == Err(InvalidKey)
  {
    assert EntryBytes(e) + rest == Be(e.spender, 32) + (Be(e.amount, 8) + rest);
    ReadsInt(e.spender, 32, Be(e.amount, 8) + rest);
  }

  lemma {:induction false} BadKeysAreReported(env: Env, es: seq<Entry>, rest: Buf)
    requires !AllValid(env, es)
    ensures ReadEntries(env, EntriesBytes(es) + rest, |es|) == Err(InvalidKey)
  {
    var n := |es| - 1;
    var tail := EntryBytes(es[n]) + rest;
    assert EntriesBytes(es) + rest == EntriesBytes(es[..n]) + tail;
    if AllValid(env, es[..n]) {
      ReadsEntries(env, es[..n], tail);
      LastIsBad(env, es);
      BadKeyIsReported(env, es[n], rest);
    } else {
      BadKeysAreReported(env, es[..n], tail);
    }
  }

  lemma LastIsBad(env: Env, es: seq<Entry>)
    requires es != [] && !AllValid(env, es) && AllValid(env, es[..|es| - 1])
    ensures !env.validKey(es[|es| - 1].spender)
  {
    var e :| e in es && !env.validKey(e.spender);
    assert e !in es[..|es| - 1];
  }

  /** An account written with a spender that is no key is rejected for that. */
  lemma AccountWithBadKey(env: Env, x: Account)
    requires !AllValid(env, x.allowances) && |x.allowances| < U32_LIMIT
    ensures Decode(env, Encode(x)) == Err(InvalidKey)
  {
    var h, body := Header(x.balance, x.frozen, |x.allowances|), EntriesBytes(x.allowances);
    FitsLength(|x.allowances|);
    ReadsHeader(h, body);
    BadKeysAreReported(env, x.allowances, []);
    assert body + [] == body;
  }

  /** A flag that is neither zero nor one is rejected for that. */
  lemma AccountWithBadFlag(env: Env, bs: Buf)
    requires |bs| > 8 && bs[8] > 1
    ensures Decode(env, bs) == Err(InvalidBool)
  {
    assert ReadInt(bs, 8).value.rest[0] == bs[8];
  }

  lemma LongStringIsReported(env: Env, s: Buf, max: nat, rest: Buf)
    requires max < |s| < U32_LIMIT
    ensures ReadString(env, StringBytes(s) + rest, max) == Err(TooLong)
  {
    Widths();
    StringSplits(s, rest);
    ReadsInt(|s|, 4, s + rest);
  }

  /** Metadata written with a text the reader does not allow is rejected for that. */
  lemma MetadataWithLongText(env: Env, m: Metadata)
    requires WellFormedMetadata(env, m)
    requires |m.labels.name| > 32 || |m.labels.symbol| > 8 || (m.labels.iconUrl.Some? && |m.labels.iconUrl.value| > 256)
    requires |m.labels.name| < U32_LIMIT && |m.labels.symbol| < U32_LIMIT
    requires m.labels.iconUrl.Some? ==> |m.labels.iconUrl.value| < U32_LIMIT
    ensures DecodeMetadata(env, EncodeMetadata(m)) == Err(TooLong)
  {
    LongLabels(env, m.labels, RightsBytes(m.rights));
  }

  lemma LongLabels(env: Env, l: Labels, rest: Buf)
    requires env.utf8(l.name) && env.utf8(l.symbol) && !FitsReader(l)
    requires |l.name| < U32_LIMIT && |l.symbol| < U32_LIMIT && (l.iconUrl.Some? ==> |l.iconUrl.value| < U32_LIMIT)
    ensures ReadLabels(env, LabelsBytes(l) + rest) == Err(TooLong)
  {
    var icon := IconBytes(l.iconUrl) + rest;
    var decimals := Be(l.decimals, 1) + icon;
    var symbol := StringBytes(l.symbol) + decimals;
    Regroup4(StringBytes(l.name), StringBytes(l.symbol), Be(l.decimals, 1), IconBytes(l.iconUrl), rest);
    if |l.name| > MAX_NAME {
      LongStringIsReported(env, l.name, MAX_NAME, symbol);
    } else {
      ReadsString(env, l.name, MAX_NAME, symbol);
      if |l.symbol| > MAX_SYMBOL {
        LongStringIsReported(env, l.symbol, MAX_SYMBOL, decimals);
      } else {
        ReadsString(env, l.symbol, MAX_SYMBOL, decimals);
        Widths();
        ReadsInt(l.decimals, 1, icon);
        LongIcon(env, l.iconUrl.value, rest);
      }
    }
  }

  lemma LongIcon(env: Env, url: Buf, rest: Buf)
    requires MAX_ICON < |url| < U32_LIMIT
    ensures ReadIcon(env, IconBytes(Some(url)) + rest) == Err(TooLong)
  {
    Regroup(BoolByte(true), StringBytes(url), rest);
    ReadsBool(true, StringBytes(url) + rest);
    LongStringIsReported(env, url, MAX_ICON, rest);
  }
}
