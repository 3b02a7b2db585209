/** types/src/token.rs and types/src/casino/codec.rs: the binary form of token metadata, strings included.
    A string is its UTF-8 bytes. */
module MetadataCodec {
  import opened Prelude
  import opened Bytes
  import opened TokenCodec

  const MAX_NAME: nat := 32
  const MAX_SYMBOL: nat := 8
  const MAX_ICON: nat := 256

  /** What stands before the supply: the texts and the number of decimals. */
  datatype Labels = Labels(name: Buf, symbol: Buf, decimals: byte, iconUrl: Option<Buf>)

  datatype Rights = Rights(totalSupply: u64, mintable: bool, burnable: bool, authority: Key)

  datatype Metadata = Metadata(labels: Labels, rights: Rights)

  ghost predicate WellFormedMetadata(env: Env, m: Metadata) {
    && env.utf8(m.labels.name) && env.utf8(m.labels.symbol)
    && (m.labels.iconUrl.Some? ==> env.utf8(m.labels.iconUrl.value))
    && env.validKey(m.rights.authority)
  }

  /** The bounds that reading enforces and writing does not. */
  predicate FitsReader(l: Labels) {
    |l.name| <= MAX_NAME && |l.symbol| <= MAX_SYMBOL && (l.iconUrl.Some? ==> |l.iconUrl.value| <= MAX_ICON)
  }

  function StringBytes(s: Buf): (r: Buf)
    ensures |r| == 4 + |s|
  {
    Be(|s| % U32_LIMIT, 4) + s
  }

  function IconBytes(icon: Option<Buf>): Buf {
    if icon.Some? then BoolByte(true) + StringBytes(icon.value) else BoolByte(false)
  }

  function LabelsBytes(l: Labels): Buf {
    StringBytes(l.name) + (StringBytes(l.symbol) + (Be(l.decimals, 1) + IconBytes(l.iconUrl)))
  }

  function RightsBytes(r: Rights): (bs: Buf)
    ensures |bs| == 8 + 1 + 1 + 32
  {
    Be(r.totalSupply, 8) + (BoolByte(r.mintable) + (BoolByte(r.burnable) + Be(r.authority, 32)))
  }

  function EncodeMetadata(m: Metadata): Buf {
    LabelsBytes(m.labels) + RightsBytes(m.rights)
  }

  function MetadataSize(m: Metadata): nat {
    4 + |m.labels.name| + 4 + |m.labels.symbol| + 1 + 1
    + (if m.labels.iconUrl.Some? then 4 + |m.labels.iconUrl.value| else 0) + 8 + 1 + 1 + 32
  }

  function ReadString(env: Env, bs: Buf, max: nat): (r: Result<Read<Buf>, Error>)
    ensures r.Ok? ==> |r.value.value| <= max && env.utf8(r.value.value)
  {
    match ReadInt(bs, 4)
    case Err(e) => Err(e)
    case Ok(len) =>
      if len.value > max then Err(TooLong)
      else if |len.rest| < len.value then Err(EndOfBuffer)
      else if !env.utf8(len.rest[..len.value]) then Err(InvalidUtf8)
      else Ok(Read(len.rest[..len.value], len.rest[len.value..]))
  }

  function ReadIcon(env: Env, bs: Buf): (r: Result<Read<Option<Buf>>, Error>)
    ensures r.Ok? && r.value.value.Some? ==> |r.value.value.value| <= MAX_ICON
  {
    match ReadBool(bs)
    case Err(e) => Err(e)
    case Ok(some) =>
      if !some.value then Ok(Read(None, some.rest))
      else
        match ReadString(env, some.rest, MAX_ICON)
        case Err(e) => Err(e)
        case Ok(url) => Ok(Read(Some(url.value), url.rest))
  }

  function ReadLabels(env: Env, bs: Buf): (r: Result<Read<Labels>, Error>)
    ensures r.Ok? ==> FitsReader(r.value.value)
  {
    match ReadString(env, bs, MAX_NAME)
    case Err(e) => Err(e)
    case Ok(name) =>
      match ReadString(env, name.rest, MAX_SYMBOL)
      case Err(e) => Err(e)
      case Ok(symbol) =>
        match ReadInt(symbol.rest, 1)
        case Err(e) => Err(e)
        case Ok(decimals) =>
          match ReadIcon(env, decimals.rest)
          case Err(e) => Err(e)
          case Ok(icon) =>
            Widths();
            Ok(Read(Labels(name.value, symbol.value, decimals.value, icon.value), icon.rest))
  }

  function ReadRights(env: Env, bs: Buf): Result<Read<Rights>, Error> {
    match ReadInt(bs, 8)
    case Err(e) => Err(e)
    case Ok(supply) =>
      match ReadBool(supply.rest)
      case Err(e) => Err(e)
      case Ok(mintable) =>
        match ReadBool(mintable.rest)
        case Err(e) => Err(e)
        case Ok(burnable) =>
          match ReadInt(burnable.rest, 32)
          case Err(e) => Err(e)
          case Ok(key) =>
            Widths();
            if !env.validKey(key.value) then Err(InvalidKey)
            else Ok(Read(Rights(supply.value, mintable.value, burnable.value, key.value), key.rest))
  }

  function ReadMetadata(env: Env, bs: Buf): Result<Read<Metadata>, Error> {
    match ReadLabels(env, bs)
    case Err(e) => Err(e)
    case Ok(labels) =>
      match ReadRights(env, labels.rest)
      case Err(e) => Err(e)
      case Ok(rights) => Ok(Read(Metadata(labels.value, rights.value), rights.rest))
  }

  function DecodeMetadata(env: Env, bs: Buf): Result<Metadata, Error> {
    Whole(ReadMetadata(env, bs))
  }

  /******* Round trips *******/

  lemma ReadsString(env: Env, s: Buf, max: nat, rest: Buf)
    requires |s| <= max < U32_LIMIT && env.utf8(s)
    ensures ReadString(env, StringBytes(s) + rest, max) == Ok(Read(s, rest))
  {
    Widths();
    StringSplits(s, rest);
    ReadsInt(|s|, 4, s + rest);
    assert (s + rest)[..|s|] == s && (s + rest)[|s|..] == rest;
  }

  lemma StringSplits(s: Buf, rest: Buf)
    requires |s| < U32_LIMIT
    ensures StringBytes(s) + rest == Be(|s|, 4) + (s + rest)
  {
    FitsLength(|s|);
    Regroup(Be(|s|, 4), s, rest);
  }

  lemma FitsLength(n: nat)
    requires n < U32_LIMIT
    ensures n % U32_LIMIT == n
  {
  }

  lemma CameFromString(env: Env, bs: Buf, max: nat)
    requires max < U32_LIMIT && ReadString(env, bs, max).Ok?
    ensures bs == StringBytes(ReadString(env, bs, max).value.value) + ReadString(env, bs, max).value.rest
  {
    CameFromInt(bs, 4);
    var len := ReadInt(bs, 4).value;
    StringSplits(len.rest[..len.value], len.rest[len.value..]);
    Cut(len.rest, len.value);
  }

  lemma Cut(bs: Buf, n: nat)
    requires n <= |bs|
    ensures bs[..n] + bs[n..] == bs
  {
  }

  lemma ReadsIcon(env: Env, icon: Option<Buf>, rest: Buf)
    requires icon.Some? ==> |icon.value| <= MAX_ICON && env.utf8(icon.value)
    ensures ReadIcon(env, IconBytes(icon) + rest) == Ok(Read(icon, rest))
  {
    if icon.Some? {
      Regroup(BoolByte(true), StringBytes(icon.value), rest);
      ReadsBool(true, StringBytes(icon.value) + rest);
      ReadsString(env, icon.value, MAX_ICON, rest);
    } else {
      ReadsBool(false, rest);
    }
  }

  lemma CameFromIcon(env: Env, bs: Buf)
    requires ReadIcon(env, bs).Ok?
    ensures bs == IconBytes(ReadIcon(env, bs).value.value) + ReadIcon(env, bs).value.rest
  {
    CameFromBool(bs);
    var some := ReadBool(bs).value;
    if some.value {
      CameFromString(env, some.rest, MAX_ICON);
      var url := ReadString(env, some.rest, MAX_ICON).value;
      Regroup(BoolByte(true), StringBytes(url.value), url.rest);
    }
  }

  lemma Regroup4(a: Buf, b: Buf, c: Buf, d: Buf, rest: Buf)
    ensures (a + (b + (c + d))) + rest == a + (b + (c + (d + rest)))
  {
  }

  lemma ReadsLabels(env: Env, l: Labels, rest: Buf)
    requires FitsReader(l) && env.utf8(l.name) && env.utf8(l.symbol) && (l.iconUrl.Some? ==> env.utf8(l.iconUrl.value))
    ensures ReadLabels(env, LabelsBytes(l) + rest) == Ok(Read(l, rest))
  {
    Widths();
    var icon := IconBytes(l.iconUrl) + rest;
    var decimals := Be(l.decimals, 1) + icon;
    var symbol := StringBytes(l.symbol) + decimals;
    Regroup4(StringBytes(l.name), StringBytes(l.symbol), Be(l.decimals, 1), IconBytes(l.iconUrl), rest);
    ReadsString(env, l.name, MAX_NAME, symbol);
    ReadsString(env, l.symbol, MAX_SYMBOL, decimals);
    ReadsInt(l.decimals, 1, icon);
    ReadsIcon(env, l.iconUrl, rest);
  }

  lemma CameFromLabels(env: Env, bs: Buf)
    requires ReadLabels(env, bs).Ok?
    ensures bs == LabelsBytes(ReadLabels(env, bs).value.value) + ReadLabels(env, bs).value.rest
  {
    CameFromString(env, bs, MAX_NAME);
    var name := ReadString(env, bs, MAX_NAME).value;
    CameFromString(env, name.rest, MAX_SYMBOL);
    var symbol := ReadString(env, name.rest, MAX_SYMBOL).value;
    CameFromInt(symbol.rest, 1);
    var decimals := ReadInt(symbol.rest, 1).value;
    CameFromIcon(env, decimals.rest);
    var icon := ReadIcon(env, decimals.rest).value;
    Regroup4(StringBytes(name.value), StringBytes(symbol.value), Be(decimals.value, 1), IconBytes(icon.value), icon.rest);
  }

  lemma ReadsRights(env: Env, r: Rights, rest: Buf)
    requires env.validKey(r.authority)
    ensures ReadRights(env, RightsBytes(r) + rest) == Ok(Read(r, rest))
  {
    Widths();
    var key := Be(r.authority, 32) + rest;
    var burnable := BoolByte(r.burnable) + key;
    var mintable := BoolByte(r.mintable) + burnable;
    Regroup4(Be(r.totalSupply, 8), BoolByte(r.mintable), BoolByte(r.burnable), Be(r.authority, 32), rest);
    ReadsInt(r.totalSupply, 8, mintable);
    ReadsBool(r.mintable, burnable);
    ReadsBool(r.burnable, key);
    ReadsInt(r.authority, 32, rest);
  }

  lemma CameFromRights(env: Env, bs: Buf)
    requires ReadRights(env, bs).Ok?
    ensures bs == RightsBytes(ReadRights(env, bs).value.value) + ReadRights(env, bs).value.rest
  {
    CameFromInt(bs, 8);
    var supply := ReadInt(bs, 8).value;
    CameFromBool(supply.rest);
    var mintable := ReadBool(supply.rest).value;
    CameFromBool(mintable.rest);
    var burnable := ReadBool(mintable.rest).value;
    CameFromInt(burnable.rest, 32);
    var key := ReadInt(burnable.rest, 32).value;
    Regroup4(Be(supply.value, 8), BoolByte(mintable.value), BoolByte(burnable.value), Be(key.value, 32), key.rest);
  }

  lemma ReadsMetadata(env: Env, m: Metadata)
    requires WellFormedMetadata(env, m) && FitsReader(m.labels)
    ensures DecodeMetadata(env, EncodeMetadata(m)) == Ok(m)
  {
    ReadsLabels(env, m.labels, RightsBytes(m.rights));
    ReadsRights(env, m.rights, []);
    assert RightsBytes(m.rights) + [] == RightsBytes(m.rights);
  }

  /** Metadata survives encoding and decoding exactly when its texts are within the reader's bounds, which
      the writer does not check; the output always has the announced size. */
  lemma MetadataRoundTripIff(env: Env, m: Metadata)
    requires WellFormedMetadata(env, m)
    ensures DecodeMetadata(env, EncodeMetadata(m)) == Ok(m) <==> FitsReader(m.labels)
    ensures |EncodeMetadata(m)| == MetadataSize(m)
  {
    if FitsReader(m.labels) {
      ReadsMetadata(env, m);
    }
  }

  /** There is one encoding for each value: whatever bytes are accepted, encoding the result gives them back. */
  lemma AcceptedMetadataIsCanonical(env: Env, bs: Buf)
    requires DecodeMetadata(env, bs).Ok?
    ensures EncodeMetadata(DecodeMetadata(env, bs).value) == bs
  {
    CameFromLabels(env, bs);
    var labels := ReadLabels(env, bs).value;
    CameFromRights(env, labels.rest);
    var rights := ReadRights(env, labels.rest).value;
    Joined(LabelsBytes(labels.value), RightsBytes(rights.value), labels.rest, rights.rest);
  }

  lemma Joined(a: Buf, b: Buf, rest: Buf, tail: Buf)
    requires rest == b + tail && tail == []
    ensures a + b == a + rest
  {
  }

  /******* The code *******/

  method ReadStr(env: Env, reader: Reader, max: nat) returns (r: Result<Buf, Error>)
    modifies reader
    ensures
      match ReadString(env, old(reader.rest), max)
      case Ok(read) => r == Ok(read.value) && reader.rest == read.rest
      case Err(e) => r == Err(e)
  {
    var len := reader.Int(4);
    if len.Err? {
      return Err(len.error);
    }
    if len.value > max {
      return Err(TooLong);
    }
    if |reader.rest| < len.value {
      return Err(EndOfBuffer);
    }
    var text := reader.rest[..len.value];
    reader.rest := reader.rest[len.value..];
    r := if env.utf8(text) then Ok(text) else Err(InvalidUtf8);
  }

  method ReadLabelFields(env: Env, reader: Reader) returns (r: Result<Labels, Error>)
    modifies reader
    ensures
      match ReadLabels(env, old(reader.rest))
      case Ok(read) => r == Ok(read.value) && reader.rest == read.rest
      case Err(e) => r == Err(e)
  {
    Widths();
    var name := ReadStr(env, reader, MAX_NAME);
    if name.Err? {
      return Err(name.error);
    }
    var symbol := ReadStr(env, reader, MAX_SYMBOL);
    if symbol.Err? {
      return Err(symbol.error);
    }
    var decimals := reader.Int(1);
    if decimals.Err? {
      return Err(decimals.error);
    }
    var hasIcon := reader.Bool();
    if hasIcon.Err? {
      return Err(hasIcon.error);
    }
    var icon: Option<Buf> := None;
    if hasIcon.value {
      var url := ReadStr(env, reader, MAX_ICON);
      if url.Err? {
        return Err(url.error);
      }
      icon := Some(url.value);
    }
    r := Ok(Labels(name.value, symbol.value, decimals.value, icon));
  }

  method ReadTokenMetadata(env: Env, reader: Reader) returns (r: Result<Metadata, Error>)
    modifies reader
    ensures
      match ReadMetadata(env, old(reader.rest))
      case Ok(read) => r == Ok(read.value) && reader.rest == read.rest
      case Err(e) => r == Err(e)
  {
    Widths();
    var labels := ReadLabelFields(env, reader);
    if labels.Err? {
      return Err(labels.error);
    }
    var supply := reader.Int(8);
    if supply.Err? {
      return Err(supply.error);
    }
    var mintable := reader.Bool();
    if mintable.Err? {
      return Err(mintable.error);
    }
    var burnable := reader.Bool();
    if burnable.Err? {
      return Err(burnable.error);
    }
    var key := reader.Int(32);
    if key.Err? {
      return Err(key.error);
    }
    if !env.validKey(key.value) {
      return Err(InvalidKey);
    }
    r := Ok(Metadata(labels.value, Rights(supply.value, mintable.value, burnable.value, key.value)));
  }

  method WriteMetadata(m: Metadata) returns (out: Buf)
    ensures out == EncodeMetadata(m) && |out| == MetadataSize(m)
  {
    out := StringBytes(m.labels.name) + StringBytes(m.labels.symbol) + Be(m.labels.decimals, 1);
    if m.labels.iconUrl.Some? {
      out := out + BoolByte(true) + StringBytes(m.labels.iconUrl.value);
    } else {
      out := out + BoolByte(false);
    }
    assert out == LabelsBytes(m.labels);
    out := out + RightsBytes(m.rights);
  }
}
