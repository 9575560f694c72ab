/** The projection marker and the digest that seals it. */
module Markers {
  import opened Wrappers
  import opened Journal
  import opened ContentModel

  const PROJECTION_FORMAT := "s9lab-content-projection"
  const PROJECTION_FORMAT_VERSION := 2

  datatype ProjectedItem = ProjectedItem(contentId: string, kind: Kind, isOverride: bool, target: string,
                                         sha256: string, size: nat)

  datatype Marker = Marker(format: string, version: nat, profile: string, revision: string,
                           lockSha256: Option<string>, items: seq<ProjectedItem>, stateSha256: string)

  /** Text as bytes. */
  datatype TextCodec = TextCodec(encode: string -> Bytes, decode: Bytes -> Option<string>)

  ghost predicate Lossless(codec: TextCodec)
  {
    forall s :: codec.decode(codec.encode(s)) == Some(s)
  }

  function KindName(kind: Kind): string
  {
    match kind
    case Mod => "mod"
    case Modpack => "modpack"
    case ShaderPack => "shaderPack"
    case ResourcePack => "resourcePack"
  }

  function KindNamed(name: string): Option<Kind>
  {
    if name == "mod" then Some(Mod)
    else if name == "modpack" then Some(Modpack)
    else if name == "shaderPack" then Some(ShaderPack)
    else if name == "resourcePack" then Some(ResourcePack)
    else None
  }

  // ----- Words and texts ----------------------------------------------------------------------------

  function BigEndian(width: nat, n: nat): (r: Bytes)
    ensures |r| == width
  {
    if width == 0 then [] else BigEndian(width - 1, n / 256) + [(n % 256) as byte]
  }

  function Value(bytes: Bytes): nat
  {
    if bytes == [] then 0 else Value(bytes[..|bytes| - 1]) * 256 + bytes[|bytes| - 1] as nat
  }

  function Capacity(width: nat): nat
  {
    if width == 0 then 1 else 256 * Capacity(width - 1)
  }

  lemma {:induction false} BigEndianValue(width: nat, n: nat)
    requires n < Capacity(width)
    ensures Value(BigEndian(width, n)) == n
  {
    if width > 0 {
      BigEndianValue(width - 1, n / 256);
      var r := BigEndian(width, n);
      assert r[..|r| - 1] == BigEndian(width - 1, n / 256);
    }
  }

  /** Takes `width` bytes off the front. */
  function ReadWord(bytes: Bytes, width: nat): Option<(nat, Bytes)>
  {
    if |bytes| < width then None else Some((Value(bytes[..width]), bytes[width..]))
  }

  lemma ReadWritten(width: nat, n: nat, rest: Bytes)
    requires n < Capacity(width)
    ensures ReadWord(BigEndian(width, n) + rest, width) == Some((n, rest))
  {
    BigEndianValue(width, n);
    assert (BigEndian(width, n) + rest)[..width] == BigEndian(width, n);
    assert (BigEndian(width, n) + rest)[width..] == rest;
  }

  /** A text is framed by its length in eight bytes. */
  function Text(codec: TextCodec, s: string): Bytes
  {
    BigEndian(8, |codec.encode(s)|) + codec.encode(s)
  }

  function ReadText(codec: TextCodec, bytes: Bytes): Option<(string, Bytes)>
  {
    match ReadWord(bytes, 8)
    case None => None
    case Some((n, rest)) =>
      if |rest| < n then None
      else match codec.decode(rest[..n])
           case None => None
           case Some(s) => Some((s, rest[n..]))
  }

  lemma ReadTextWritten(codec: TextCodec, s: string, rest: Bytes)
    requires Lossless(codec) && |codec.encode(s)| < Capacity(8)
    ensures ReadText(codec, Text(codec, s) + rest) == Some((s, rest))
  {
    var body := codec.encode(s);
    assert Text(codec, s) + rest == BigEndian(8, |body|) + (body + rest);
    ReadWritten(8, |body|, body + rest);
    assert (body + rest)[..|body|] == body && (body + rest)[|body|..] == rest;
  }

  // ----- The stream -----------------------------------------------------------------------------------

  function Flag(b: bool): Bytes
  {
    [if b then 1 else 0]
  }

  function OptionalText(codec: TextCodec, s: Option<string>): Bytes
  {
    match s
    case Some(value) => [1] + Text(codec, value)
    case None => [0]
  }

  function ItemTailStream(codec: TextCodec, item: ProjectedItem): Bytes
  {
    Text(codec, item.target) + (Text(codec, item.sha256) + BigEndian(8, item.size))
  }

  function KindStream(codec: TextCodec, kind: Kind): Bytes
  {
    Text(codec, KindName(kind))
  }

  function ItemStream(codec: TextCodec, item: ProjectedItem): Bytes
  {
    Text(codec, item.contentId) + (KindStream(codec, item.kind) + (Flag(item.isOverride) + ItemTailStream(codec, item)))
  }

  function ItemsStream(codec: TextCodec, items: seq<ProjectedItem>): Bytes
  {
    if items == [] then [] else ItemStream(codec, items[0]) + ItemsStream(codec, items[1..])
  }

  /** Everything the marker's digest covers: all of it but the format text and the digest itself. */
  function Stream(codec: TextCodec, m: Marker): Bytes
  {
    Text(codec, PROJECTION_FORMAT) + (BigEndian(4, m.version) + (Text(codec, m.profile) + (Text(codec, m.revision)
    + (OptionalText(codec, m.lockSha256) + (BigEndian(8, |m.items|) + ItemsStream(codec, m.items))))))
  }

  predicate Short(codec: TextCodec, s: string)
  {
    |codec.encode(s)| < Capacity(8)
  }

  predicate FitsItem(codec: TextCodec, item: ProjectedItem)
  {
    && Short(codec, item.contentId) && Short(codec, KindName(item.kind)) && Short(codec, item.target)
    && Short(codec, item.sha256) && item.size < Capacity(8)
  }

  /** Lengths, sizes and the version fit the machine words that carry them. */
  predicate Fits(codec: TextCodec, m: Marker)
  {
    && Short(codec, PROJECTION_FORMAT) && m.version < Capacity(4)
    && Short(codec, m.profile) && Short(codec, m.revision)
    && (m.lockSha256.Some? ==> Short(codec, m.lockSha256.value))
    && |m.items| < Capacity(8)
    && forall item :: item in m.items ==> FitsItem(codec, item)
  }

  // ----- The decoder ------------------------------------------------------------------------------------

  datatype Fields = Fields(version: nat, profile: string, revision: string, lockSha256: Option<string>,
                           items: seq<ProjectedItem>)

  function FieldsOf(m: Marker): Fields
  {
    Fields(m.version, m.profile, m.revision, m.lockSha256, m.items)
  }

  function ReadFlag(bytes: Bytes): Option<(bool, Bytes)>
  {
    if bytes == [] || bytes[0] > 1 then None else Some((bytes[0] == 1, bytes[1..]))
  }

  function ReadOptionalText(codec: TextCodec, bytes: Bytes): Option<(Option<string>, Bytes)>
  {
    match ReadFlag(bytes)
    case None => None
    case Some((false, rest)) => Some((None, rest))
    case Some((true, rest)) =>
      match ReadText(codec, rest)
      case None => None
      case Some((s, tail)) => Some((Some(s), tail))
  }

  function ReadItemTail(codec: TextCodec, contentId: string, kind: Kind, isOverride: bool, bytes: Bytes)
    : Option<(ProjectedItem, Bytes)>
  {
    match ReadText(codec, bytes)
    case None => None
    case Some((target, b1)) =>
      match ReadText(codec, b1)
      case None => None
      case Some((sha256, b2)) =>
        match ReadWord(b2, 8)
        case None => None
        case Some((size, rest)) => Some((ProjectedItem(contentId, kind, isOverride, target, sha256, size), rest))
  }

  function ReadKind(codec: TextCodec, bytes: Bytes): Option<(Kind, Bytes)>
  {
    match ReadText(codec, bytes)
    case None => None
    case Some((name, rest)) =>
      match KindNamed(name)
      case None => None
      case Some(kind) => Some((kind, rest))
  }

  function ReadItem(codec: TextCodec, bytes: Bytes): Option<(ProjectedItem, Bytes)>
  {
    match ReadText(codec, bytes)
    case None => None
    case Some((contentId, b1)) =>
      match ReadKind(codec, b1)
      case None => None
      case Some((kind, b2)) =>
        match ReadFlag(b2)
        case None => None
        case Some((isOverride, b3)) => ReadItemTail(codec, contentId, kind, isOverride, b3)
  }

  function ReadItems(codec: TextCodec, bytes: Bytes, count: nat): Option<seq<ProjectedItem>>
  {
    if count == 0 then (if bytes == [] then Some([]) else None)
    else
      match ReadItem(codec, bytes)
      case None => None
      case Some((item, rest)) =>
        match ReadItems(codec, rest, count - 1)
        case None => None
        case Some(items) => Some([item] + items)
  }

  function ReadTail(codec: TextCodec, version: nat, bytes: Bytes): Option<Fields>
  {
    match ReadText(codec, bytes)
    case None => None
    case Some((profile, b1)) =>
      match ReadText(codec, b1)
      case None => None
      case Some((revision, b2)) =>
        match ReadOptionalText(codec, b2)
        case None => None
        case Some((lockSha256, b3)) =>
          match ReadWord(b3, 8)
          case None => None
          case Some((count, b4)) =>
            match ReadItems(codec, b4, count)
            case None => None
            case Some(items) => Some(Fields(version, profile, revision, lockSha256, items))
  }

  function Decode(codec: TextCodec, bytes: Bytes): Option<Fields>
  {
    match ReadText(codec, bytes)
    case None => None
    case Some((format, b1)) =>
      if format != PROJECTION_FORMAT then None
      else
        match ReadWord(b1, 4)
        case None => None
        case Some((version, b2)) => ReadTail(codec, version, b2)
  }

  lemma ReadItemTailWritten(codec: TextCodec, item: ProjectedItem, rest: Bytes)
    requires Lossless(codec) && FitsItem(codec, item)
    ensures ReadItemTail(codec, item.contentId, item.kind, item.isOverride, ItemTailStream(codec, item) + rest)
         == Some((item, rest))
  {
    var s2 := BigEndian(8, item.size) + rest;
    var s1 := Text(codec, item.sha256) + s2;
    assert ItemTailStream(codec, item) + rest == Text(codec, item.target) + s1;
    ReadTextWritten(codec, item.target, s1);
    ReadTextWritten(codec, item.sha256, s2);
    ReadWritten(8, item.size, rest);
  }

  lemma ReadKindWritten(codec: TextCodec, kind: Kind, rest: Bytes)
    requires Lossless(codec) && Short(codec, KindName(kind))
    ensures ReadKind(codec, KindStream(codec, kind) + rest) == Some((kind, rest))
  {
    ReadTextWritten(codec, KindName(kind), rest);
  }

  lemma ReadFlagWritten(b: bool, rest: Bytes)
    ensures ReadFlag(Flag(b) + rest) == Some((b, rest))
  {
    assert (Flag(b) + rest)[1..] == rest;
  }

  lemma ReadItemWritten(codec: TextCodec, item: ProjectedItem, rest: Bytes)
    requires Lossless(codec) && FitsItem(codec, item)
    ensures ReadItem(codec, ItemStream(codec, item) + rest) == Some((item, rest))
  {
    var s3 := ItemTailStream(codec, item) + rest;
    var s2 := Flag(item.isOverride) + s3;
    var s1 := KindStream(codec, item.kind) + s2;
    assert ItemStream(codec, item) + rest == Text(codec, item.contentId) + s1;
    ReadTextWritten(codec, item.contentId, s1);
    ReadKindWritten(codec, item.kind, s2);
    ReadFlagWritten(item.isOverride, s3);
    ReadItemTailWritten(codec, item, rest);
  }

  lemma {:induction false} ReadItemsWritten(codec: TextCodec, items: seq<ProjectedItem>)
    requires Lossless(codec) && forall item :: item in items ==> FitsItem(codec, item)
    ensures ReadItems(codec, ItemsStream(codec, items), |items|) == Some(items)
  {
    if items != [] {
      ReadItemWritten(codec, items[0], ItemsStream(codec, items[1..]));
      ReadItemsWritten(codec, items[1..]);
      assert items == [items[0]] + items[1..];
    }
  }

  lemma ReadOptionalWritten(codec: TextCodec, s: Option<string>, rest: Bytes)
    requires Lossless(codec) && (s.Some? ==> Short(codec, s.value))
    ensures ReadOptionalText(codec, OptionalText(codec, s) + rest) == Some((s, rest))
  {
    if s.Some? {
      assert (OptionalText(codec, s) + rest)[1..] == Text(codec, s.value) + rest;
      ReadTextWritten(codec, s.value, rest);
    } else {
      assert (OptionalText(codec, s) + rest)[1..] == rest;
    }
  }

  lemma ReadTailWritten(codec: TextCodec, m: Marker)
    requires Lossless(codec) && Fits(codec, m)
    ensures ReadTail(codec, m.version,
                     Text(codec, m.profile) + (Text(codec, m.revision) + (OptionalText(codec, m.lockSha256)
                     + (BigEndian(8, |m.items|) + ItemsStream(codec, m.items))))) == Some(FieldsOf(m))
  {
    var s4 := ItemsStream(codec, m.items);
    var s3 := BigEndian(8, |m.items|) + s4;
    var s2 := OptionalText(codec, m.lockSha256) + s3;
    ReadTextWritten(codec, m.profile, Text(codec, m.revision) + s2);
    ReadTextWritten(codec, m.revision, s2);
    ReadOptionalWritten(codec, m.lockSha256, s3);
    ReadWritten(8, |m.items|, s4);
    ReadItemsWritten(codec, m.items);
  }

  /** The stream can be read back: framing by lengths loses nothing. */
  lemma DecodeStream(codec: TextCodec, m: Marker)
    requires Lossless(codec) && Fits(codec, m)
    ensures Decode(codec, Stream(codec, m)) == Some(FieldsOf(m))
  {
    var tail := Text(codec, m.profile) + (Text(codec, m.revision) + (OptionalText(codec, m.lockSha256)
                + (BigEndian(8, |m.items|) + ItemsStream(codec, m.items))));
    ReadTextWritten(codec, PROJECTION_FORMAT, BigEndian(4, m.version) + tail);
    ReadWritten(4, m.version, tail);
    ReadTailWritten(codec, m);
  }

  /** Two markers with the same stream say the same. */
  lemma StreamInjective(codec: TextCodec, m: Marker, n: Marker)
    requires Lossless(codec) && Fits(codec, m) && Fits(codec, n)
    requires Stream(codec, m) == Stream(codec, n)
    ensures FieldsOf(m) == FieldsOf(n)
  {
    DecodeStream(codec, m);
    DecodeStream(codec, n);
  }

  // ----- The hasher ------------------------------------------------------------------------------------------

  /** An incremental hash: the digest is that of everything fed so far. */
  class Hasher {
    var fed: Bytes

    constructor ()
      ensures fed == []
    {
      fed := [];
    }

    method Update(bytes: Bytes)
      modifies this
      ensures fed == old(fed) + bytes
    {
      fed := fed + bytes;
    }

    method AppendText(codec: TextCodec, s: string)
      modifies this
      ensures fed == old(fed) + Text(codec, s)
    {
      Update(BigEndian(8, |codec.encode(s)|));
      Update(codec.encode(s));
    }
  }

  lemma {:induction false} ItemsStreamAppend(codec: TextCodec, items: seq<ProjectedItem>, item: ProjectedItem)
    ensures ItemsStream(codec, items + [item]) == ItemsStream(codec, items) + ItemStream(codec, item)
  {
    if items == [] {
      assert [item][1..] == [];
    } else {
      assert (items + [item])[1..] == items[1..] + [item];
      ItemsStreamAppend(codec, items[1..], item);
    }
  }

  method FeedItem(hasher: Hasher, codec: TextCodec, item: ProjectedItem)
    modifies hasher
    ensures hasher.fed == old(hasher.fed) + ItemStream(codec, item)
  {
    hasher.AppendText(codec, item.contentId);
    hasher.AppendText(codec, KindName(item.kind));
    hasher.Update(Flag(item.isOverride));
    hasher.AppendText(codec, item.target);
    hasher.AppendText(codec, item.sha256);
    hasher.Update(BigEndian(8, item.size));
  }

  method FeedItems(hasher: Hasher, codec: TextCodec, items: seq<ProjectedItem>)
    modifies hasher
    ensures hasher.fed == old(hasher.fed) + ItemsStream(codec, items)
  {
    ghost var before := hasher.fed;
    for i := 0 to |items|
      invariant hasher.fed == before + ItemsStream(codec, items[..i])
    {
      assert items[..i + 1] == items[..i] + [items[i]];
      ItemsStreamAppend(codec, items[..i], items[i]);
      FeedItem(hasher, codec, items[i]);
      Append(before, ItemsStream(codec, items[..i]), ItemStream(codec, items[i]));
    }
    assert items[..|items|] == items;
  }

  method FeedOptional(hasher: Hasher, codec: TextCodec, s: Option<string>)
    modifies hasher
    ensures hasher.fed == old(hasher.fed) + OptionalText(codec, s)
  {
    match s {
      case Some(value) =>
        hasher.Update([1]);
        hasher.AppendText(codec, value);
      case None =>
        hasher.Update([0]);
    }
  }

  method FeedHeader(hasher: Hasher, codec: TextCodec, marker: Marker)
    requires hasher.fed == []
    modifies hasher
    ensures hasher.fed + ItemsStream(codec, marker.items) == Stream(codec, marker)
  {
    hasher.AppendText(codec, PROJECTION_FORMAT);
    hasher.Update(BigEndian(4, marker.version));
    hasher.AppendText(codec, marker.profile);
    hasher.AppendText(codec, marker.revision);
    FeedOptional(hasher, codec, marker.lockSha256);
    hasher.Update(BigEndian(8, |marker.items|));
    Regroup(Text(codec, PROJECTION_FORMAT), BigEndian(4, marker.version), Text(codec, marker.profile),
            Text(codec, marker.revision), OptionalText(codec, marker.lockSha256), BigEndian(8, |marker.items|),
            ItemsStream(codec, marker.items));
  }

  lemma Regroup(a: Bytes, b: Bytes, c: Bytes, d: Bytes, e: Bytes, f: Bytes, g: Bytes)
    ensures [] + a + b + c + d + e + f + g == a + (b + (c + (d + (e + (f + g)))))
  {
  }

  lemma Append(a: Bytes, b: Bytes, c: Bytes)
    ensures (a + b) + c == a + (b + c)
  {
  }

  /** The digest of a marker, fed piece by piece. */
  method MarkerStateSha256(codec: TextCodec, sha256: Bytes -> string, marker: Marker) returns (digest: string)
    ensures digest == sha256(Stream(codec, marker))
  {
    var hasher := new Hasher();
    FeedHeader(hasher, codec, marker);
    FeedItems(hasher, codec, marker.items);
    digest := sha256(hasher.fed);
  }
}
