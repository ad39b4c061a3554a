/** Mixing entropy sources: packages/core/src/entropy/combine.ts. */
module Entropy {
  import opened Text
  import opened Keys
  import opened Order
  import opened Lists

  const MIN_SOURCES: nat := 1
  const MAX_SOURCES: nat := 8
  const MIN_SOURCE_BYTES: nat := 16
  const MAX_SOURCE_BYTES: nat := 64
  const MAX_SOURCE_ID_BYTES: nat := 255

  datatype Source = Source(id: string, material: seq<byte>)

  datatype EntropyError = NoSources | TooManySources | EmptyId | IdTooLong | DuplicateId | BadLength

  // ----- UTF-8 (RFC 3629)

  function Utf8Char(c: char): (r: seq<byte>)
    ensures 1 <= |r| <= 4
  {
    var n := c as int;
    if n < 0x80 then [n]
    else if n < 0x800 then [0xC0 + n / 0x40, 0x80 + n % 0x40]
    else if n < 0x1_0000 then [0xE0 + n / 0x1000, 0x80 + n / 0x40 % 0x40, 0x80 + n % 0x40]
    else [0xF0 + n / 0x4_0000, 0x80 + n / 0x1000 % 0x40, 0x80 + n / 0x40 % 0x40, 0x80 + n % 0x40]
  }

  function Utf8(s: string): seq<byte> {
    if s == "" then [] else Utf8Char(s[0]) + Utf8(s[1..])
  }

  /** The first byte says how long a character is, and its bytes say which it is. */
  lemma CharPrefix(c: char, d: char, x: seq<byte>, y: seq<byte>)
    requires Utf8Char(c) + x == Utf8Char(d) + y
    ensures c == d && x == y
  {
    hide Utf8Char;
    var a, b := Utf8Char(c), Utf8Char(d);
    assert (a + x)[0] == a[0] && (b + y)[0] == b[0];
    LeadByte(c);
    LeadByte(d);
    SameLength(a[0], |a|, |b|);
    Cut(a, x, b, y);
    CharBack(c);
    CharBack(d);
  }

  lemma Cut(a: seq<byte>, x: seq<byte>, b: seq<byte>, y: seq<byte>)
    requires a + x == b + y && |a| == |b|
    ensures a == b && x == y
  {
    assert a == (a + x)[..|a|] && x == (a + x)[|a|..];
    assert b == (b + y)[..|b|] && y == (b + y)[|b|..];
  }

  /** How many bytes a character takes, by its first byte. */
  predicate Leads(lead: byte, length: nat) {
    (length == 1 && lead < 0x80) || (length == 2 && 0xC0 <= lead < 0xE0) ||
    (length == 3 && 0xE0 <= lead < 0xF0) || (length == 4 && 0xF0 <= lead)
  }

  lemma LeadByte(c: char)
    ensures Leads(Utf8Char(c)[0], |Utf8Char(c)|)
  {
  }

  lemma SameLength(lead: byte, m: nat, n: nat)
    requires Leads(lead, m) && Leads(lead, n)
    ensures m == n
  {
  }

  /** The code point a character's bytes spell. */
  function CodePoint(bytes: seq<byte>): int
    requires 1 <= |bytes| <= 4
  {
    var at := (i: nat) requires i < |bytes| => bytes[i] as int;
    if |bytes| == 1 then at(0)
    else if |bytes| == 2 then (at(0) - 0xC0) * 0x40 + (at(1) - 0x80)
    else if |bytes| == 3 then (at(0) - 0xE0) * 0x1000 + (at(1) - 0x80) * 0x40 + (at(2) - 0x80)
    else (at(0) - 0xF0) * 0x4_0000 + (at(1) - 0x80) * 0x1000 + (at(2) - 0x80) * 0x40 + (at(3) - 0x80)
  }

  lemma CharBack(c: char)
    ensures CodePoint(Utf8Char(c)) == c as int
  {
    Digits64(c as int);
  }

  lemma Digits64(n: int)
    requires 0 <= n
    ensures n == n / 0x40 * 0x40 + n % 0x40
    ensures n / 0x40 == n / 0x1000 * 0x40 + n / 0x40 % 0x40
    ensures n / 0x1000 == n / 0x4_0000 * 0x40 + n / 0x1000 % 0x40
  {
    assert n / 0x40 / 0x40 == n / 0x1000;
    assert n / 0x1000 / 0x40 == n / 0x4_0000;
  }

  /** Different ids have different bytes. */
  lemma {:induction false} Utf8Injective(s: string, t: string)
    requires Utf8(s) == Utf8(t)
    ensures s == t
    decreases |s|
  {
    hide Utf8Char;
    if s != "" && t != "" {
      CharPrefix(s[0], t[0], Utf8(s[1..]), Utf8(t[1..]));
      Utf8Injective(s[1..], t[1..]);
      assert s == [s[0]] + s[1..] && t == [t[0]] + t[1..];
    }
  }

  // ----- validation

  predicate SeenBefore(sources: seq<Source>, i: nat)
    requires i < |sources|
  {
    exists k :: 0 <= k < i && sources[k].id == sources[i].id
  }

  /** The first complaint about one source, given those before it. */
  function CheckSource(sources: seq<Source>, i: nat): Option<EntropyError>
    requires i < |sources|
  {
    if sources[i].id == "" then Some(EmptyId)
    else if |Utf8(sources[i].id)| > MAX_SOURCE_ID_BYTES then Some(IdTooLong)
    else if SeenBefore(sources, i) then Some(DuplicateId)
    else if |sources[i].material| < MIN_SOURCE_BYTES || |sources[i].material| > MAX_SOURCE_BYTES then Some(BadLength)
    else None
  }

  function CheckFrom(sources: seq<Source>, i: nat): Option<EntropyError>
    requires i <= |sources|
    decreases |sources| - i
  {
    if i == |sources| then None
    else if CheckSource(sources, i).Some? then CheckSource(sources, i)
    else CheckFrom(sources, i + 1)
  }

  function Validate(sources: seq<Source>): Option<EntropyError> {
    if |sources| < MIN_SOURCES then Some(NoSources)
    else if |sources| > MAX_SOURCES then Some(TooManySources)
    else CheckFrom(sources, 0)
  }

  /** validate, growing the set of the ids seen. */
  method ValidateLoop(sources: seq<Source>) returns (error: Option<EntropyError>)
    ensures error == Validate(sources)
  {
    hide Utf8;
    if |sources| < MIN_SOURCES {
      return Some(NoSources);
    }
    if |sources| > MAX_SOURCES {
      return Some(TooManySources);
    }
    var seen: set<string> := {};
    for i := 0 to |sources|
      invariant forall id :: id in seen <==> exists k :: 0 <= k < i && sources[k].id == id
      invariant CheckFrom(sources, i) == CheckFrom(sources, 0)
    {
      var source := sources[i];
      if source.id == "" {
        return Some(EmptyId);
      }
      if |Utf8(source.id)| > MAX_SOURCE_ID_BYTES {
        return Some(IdTooLong);
      }
      if source.id in seen {
        return Some(DuplicateId);
      }
      seen := seen + {source.id};
      if |source.material| < MIN_SOURCE_BYTES || |source.material| > MAX_SOURCE_BYTES {
        return Some(BadLength);
      }
    }
    return None;
  }

  ghost predicate SourceOk(source: Source) {
    source.id != "" && |Utf8(source.id)| <= 255 && 16 <= |source.material| <= 64
  }

  ghost predicate UniqueIds(sources: seq<Source>) {
    forall i, j :: 0 <= i < j < |sources| ==> sources[i].id != sources[j].id
  }

  ghost predicate AllOk(sources: seq<Source>) {
    forall i :: 0 <= i < |sources| ==> SourceOk(sources[i])
  }

  /** What each complaint means of the list. */
  ghost predicate Because(sources: seq<Source>, error: EntropyError) {
    match error
    case NoSources => sources == []
    case TooManySources => |sources| > 8
    case EmptyId => exists i :: 0 <= i < |sources| && sources[i].id == ""
    case IdTooLong => exists i :: 0 <= i < |sources| && |Utf8(sources[i].id)| > 255
    case DuplicateId => exists i, j :: 0 <= i < j < |sources| && sources[i].id == sources[j].id
    case BadLength => exists i :: 0 <= i < |sources| && !(16 <= |sources[i].material| <= 64)
  }

  lemma {:induction false} FromBecause(sources: seq<Source>, i: nat)
    requires i <= |sources|
    ensures CheckFrom(sources, i).Some? ==> Because(sources, CheckFrom(sources, i).value)
    decreases |sources| - i
  {
    hide Utf8;
    if i < |sources| {
      FromBecause(sources, i + 1);
    }
  }

  /** The complaint is one the list deserves. */
  lemma ComplaintMeans(sources: seq<Source>)
    ensures Validate(sources).Some? ==> Because(sources, Validate(sources).value)
    ensures |sources| == 0 || |sources| > 8 ==> Validate(sources).Some? && (Validate(sources).value.NoSources? || Validate(sources).value.TooManySources?)
  {
    hide CheckFrom, Utf8;
    FromBecause(sources, 0);
  }

  lemma {:induction false} CheckFromMeans(sources: seq<Source>, i: nat)
    requires i <= |sources|
    ensures CheckFrom(sources, i).None? <==> forall k :: i <= k < |sources| ==> CheckSource(sources, k).None?
    decreases |sources| - i
  {
    hide CheckSource;
    if i < |sources| {
      CheckFromMeans(sources, i + 1);
    }
  }

  /** Validation passes exactly the lists of one to eight well-sized sources with ids of their own. */
  lemma ValidateMeans(sources: seq<Source>)
    ensures Validate(sources).None? <==>
            1 <= |sources| <= 8 && AllOk(sources) && UniqueIds(sources)
  {
    hide Utf8;
    CheckFromMeans(sources, 0);
    if UniqueIds(sources) {
      forall k | 0 <= k < |sources|
        ensures !SeenBefore(sources, k)
      {
      }
    }
    if forall k :: 0 <= k < |sources| ==> CheckSource(sources, k).None? {
      forall i, j | 0 <= i < j < |sources|
        ensures sources[i].id != sources[j].id
      {
        assert CheckSource(sources, j).None?;
      }
      forall k | 0 <= k < |sources|
        ensures SourceOk(sources[k])
      {
        assert CheckSource(sources, k).None?;
      }
    }
  }

  // ----- one chunk

  function EncodeSource(source: Source): seq<byte>
    requires SourceFits(source)
  {
    var id := Utf8(source.id);
    [|id|] + id + [|source.material| / 0x100, |source.material| % 0x100] + source.material
  }

  /** What one length byte and two can hold. */
  predicate SourceFits(source: Source) {
    |Utf8(source.id)| < 0x100 && |source.material| < 0x1_0000
  }

  /** encodeSource: fill a buffer of the right size, moving an offset. */
  method EncodeSourceLoop(source: Source) returns (out: array<byte>)
    requires SourceFits(source)
    ensures fresh(out) && out[..] == EncodeSource(source)
  {
    hide Utf8;
    var id := Utf8(source.id);
    var material := source.material;
    out := new byte[1 + |id| + 2 + |material|](_ => 0);
    var offset := 0;
    out[offset] := |id|;
    offset := offset + 1;
    Put(out, offset, id);
    offset := offset + |id|;
    out[offset] := |material| / 0x100;
    out[offset + 1] := |material| % 0x100;
    offset := offset + 2;
    ghost var head := out[..offset];
    HeadParts(out[..], head, id, material);
    Put(out, offset, material);
    HeadKept(out[..], head, id, material);
    ChunkParts(out[..], id, material);
  }

  /** A chunk up to its material. */
  ghost predicate Head(head: seq<byte>, id: seq<byte>, material: seq<byte>) {
    && |id| < 0x100 && |material| < 0x1_0000 && |head| == 3 + |id|
    && head[0] == |id| && head[1..1 + |id|] == id
    && head[1 + |id|] == |material| / 0x100 && head[2 + |id|] == |material| % 0x100
  }

  lemma HeadParts(out: seq<byte>, head: seq<byte>, id: seq<byte>, material: seq<byte>)
    requires |id| < 0x100 && |material| < 0x1_0000 && 3 + |id| <= |out| && head == out[..3 + |id|]
    requires out[0] == |id| && out[1..1 + |id|] == id && out[1 + |id|] == |material| / 0x100 && out[2 + |id|] == |material| % 0x100
    ensures Head(head, id, material)
  {
    assert head[1..1 + |id|] == out[1..1 + |id|];
  }

  lemma HeadKept(out: seq<byte>, head: seq<byte>, id: seq<byte>, material: seq<byte>)
    requires Head(head, id, material) && 3 + |id| <= |out| && out[..3 + |id|] == head
    ensures out[0] == |id| && out[1..1 + |id|] == id && out[1 + |id|] == |material| / 0x100 && out[2 + |id|] == |material| % 0x100
  {
    assert out[1..1 + |id|] == head[1..1 + |id|];
    assert forall k :: 0 <= k < |head| ==> out[k] == head[k];
  }

  lemma ChunkParts(out: seq<byte>, id: seq<byte>, material: seq<byte>)
    requires |out| == 3 + |id| + |material| && |id| < 0x100 && |material| < 0x1_0000
    requires out[0] == |id| && out[1..1 + |id|] == id && out[1 + |id|] == |material| / 0x100
    requires out[2 + |id|] == |material| % 0x100 && out[3 + |id|..] == material
    ensures out == [|id|] + id + [|material| / 0x100, |material| % 0x100] + material
  {
    assert out == out[..1] + out[1..1 + |id|] + out[1 + |id|..3 + |id|] + out[3 + |id|..];
  }

  /** TypedArray.prototype.set. */
  method Put(out: array<byte>, offset: nat, bytes: seq<byte>)
    requires offset + |bytes| <= out.Length
    modifies out
    ensures out[..offset] == old(out[..offset]) && out[offset..offset + |bytes|] == bytes
    ensures out[offset + |bytes|..] == old(out[offset + |bytes|..])
  {
    for i := 0 to |bytes|
      invariant forall k :: 0 <= k < offset ==> out[k] == old(out[k])
      invariant forall k :: 0 <= k < i ==> out[offset + k] == bytes[k]
      invariant forall k :: offset + |bytes| <= k < out.Length ==> out[k] == old(out[k])
    {
      out[offset + i] := bytes[i];
    }
  }

  /** A chunk carries its own lengths: nothing that follows it can be taken for part of it. */
  lemma ChunkPrefix(a: Source, b: Source, x: seq<byte>, y: seq<byte>)
    requires SourceFits(a) && SourceFits(b) && EncodeSource(a) + x == EncodeSource(b) + y
    ensures a == b && x == y
  {
    hide Utf8;
    var i, j := Utf8(a.id), Utf8(b.id);
    Lengths(a, x);
    Lengths(b, y);
    var whole := EncodeSource(a) + x;
    assert |i| == whole[0] == |j|;
    assert i == whole[1..1 + |i|] == j;
    assert |a.material| == |b.material|;
    assert a.material == whole[3 + |i|..3 + |i| + |a.material|] == b.material;
    Cut(EncodeSource(a), x, EncodeSource(b), y);
    Utf8Injective(a.id, b.id);
  }

  lemma Lengths(a: Source, x: seq<byte>)
    requires SourceFits(a)
    ensures var (id, whole) := (Utf8(a.id), EncodeSource(a) + x);
            && |whole| >= 3 + |id| + |a.material| && whole[0] == |id| && whole[1..1 + |id|] == id
            && (whole[1 + |id|] as int) * 0x100 + whole[2 + |id|] as int == |a.material|
            && whole[3 + |id|..3 + |id| + |a.material|] == a.material
            && |EncodeSource(a)| == 3 + |id| + |a.material|
  {
    hide Utf8;
    var id := Utf8(a.id);
    var chunk := EncodeSource(a);
    var whole := chunk + x;
    assert chunk[1..1 + |id|] == id;
    assert chunk[3 + |id|..] == a.material;
    assert forall k :: 0 <= k < |chunk| ==> whole[k] == chunk[k];
    assert chunk[1 + |id|] == |a.material| / 0x100 && chunk[2 + |id|] == |a.material| % 0x100;
  }

  // ----- the whole list

  function Concat(sources: seq<Source>): seq<byte>
    requires forall i :: 0 <= i < |sources| ==> SourceFits(sources[i])
  {
    if sources == [] then [] else EncodeSource(sources[0]) + Concat(sources[1..])
  }

  /** The concatenation decodes: it belongs to one list of sources only. */
  lemma {:induction false} ConcatInjective(a: seq<Source>, b: seq<Source>)
    requires forall i :: 0 <= i < |a| ==> SourceFits(a[i])
    requires forall i :: 0 <= i < |b| ==> SourceFits(b[i])
    requires Concat(a) == Concat(b)
    ensures a == b
    decreases |a|
  {
    hide EncodeSource, SourceFits;
    if a == [] || b == [] {
      if a != [] {
        ChunkNotEmpty(a[0]);
      }
      if b != [] {
        ChunkNotEmpty(b[0]);
      }
    } else {
      ChunkPrefix(a[0], b[0], Concat(a[1..]), Concat(b[1..]));
      ConcatInjective(a[1..], b[1..]);
      assert a == [a[0]] + a[1..] && b == [b[0]] + b[1..];
    }
  }

  lemma ChunkNotEmpty(source: Source)
    requires SourceFits(source)
    ensures |EncodeSource(source)| > 0
  {
  }

  /** The bytes sources are ordered by. */
  function IdBytes(source: Source): seq<int> {
    Utf8(source.id)
  }

  lemma FitsWhenOk(sources: seq<Source>)
    requires AllOk(sources)
    ensures forall i :: 0 <= i < |sources| ==> SourceFits(sources[i])
  {
  }

  lemma SortedFits(sources: seq<Source>)
    requires AllOk(sources)
    ensures forall i :: 0 <= i < |Sort(sources, IdBytes)| ==> SourceFits(Sort(sources, IdBytes)[i])
  {
    hide Sort, SourceFits, SourceOk;
    SortBag(sources, IdBytes);
    FitsWhenOk(sources);
    forall i | 0 <= i < |Sort(sources, IdBytes)|
      ensures SourceFits(Sort(sources, IdBytes)[i])
    {
      BagMember(Sort(sources, IdBytes)[i], Sort(sources, IdBytes), sources);
    }
  }

  /** The input keying material: the sources in the order of their id bytes, encoded and joined. */
  function KeyingMaterial(sources: seq<Source>): seq<byte>
    requires Validate(sources).None?
  {
    ValidateMeans(sources);
    SortedFits(sources);
    Concat(Sort(sources, IdBytes))
  }

  /** One chunk: a length byte, the id in UTF-8, two length bytes with the high one first, and the material. */
  ghost predicate IsChunk(source: Source, chunk: seq<byte>) {
    var (id, n) := (Utf8(source.id), |source.material|);
    && |chunk| == 3 + |id| + n && |id| < 256 && n < 65536
    && chunk[0] == |id| && chunk[1..1 + |id|] == id
    && (chunk[1 + |id|] as int) * 256 + chunk[2 + |id|] as int == n && chunk[3 + |id|..] == source.material
  }

  ghost predicate ChunksOf(sources: seq<Source>, chunks: seq<seq<byte>>) {
    |chunks| == |sources| && forall i :: 0 <= i < |sources| ==> IsChunk(sources[i], chunks[i])
  }

  function Flat(chunks: seq<seq<byte>>): seq<byte> {
    if chunks == [] then [] else chunks[0] + Flat(chunks[1..])
  }

  lemma EncodedChunk(source: Source)
    requires SourceFits(source)
    ensures IsChunk(source, EncodeSource(source))
  {
    hide Utf8;
    Lengths(source, []);
    assert EncodeSource(source) + [] == EncodeSource(source);
  }

  lemma {:induction false} ConcatFlat(sources: seq<Source>) returns (chunks: seq<seq<byte>>)
    requires forall i :: 0 <= i < |sources| ==> SourceFits(sources[i])
    ensures ChunksOf(sources, chunks) && Concat(sources) == Flat(chunks)
  {
    hide EncodeSource, SourceFits, IsChunk;
    if sources == [] {
      chunks := [];
    } else {
      var rest := ConcatFlat(sources[1..]);
      EncodedChunk(sources[0]);
      chunks := [EncodeSource(sources[0])] + rest;
      assert chunks[1..] == rest;
      forall i | 0 <= i < |sources|
        ensures IsChunk(sources[i], chunks[i])
      {
        assert i > 0 ==> sources[i] == sources[1..][i - 1] && chunks[i] == rest[i - 1];
      }
    }
  }

  /** The same sources, with the bytes of their ids in strictly ascending order. */
  ghost predicate Arranged(sources: seq<Source>, ordered: seq<Source>) {
    multiset(ordered) == multiset(sources) &&
    forall i, j :: 0 <= i < j < |ordered| ==> Below(Utf8(ordered[i].id), Utf8(ordered[j].id))
  }

  /** What is mixed: the chunks of the sources, one after another, in ascending order of the UTF-8 bytes of their ids. */
  lemma KeyingMaterialMeans(sources: seq<Source>) returns (ordered: seq<Source>, chunks: seq<seq<byte>>)
    requires Validate(sources).None?
    ensures Arranged(sources, ordered) && ChunksOf(ordered, chunks) && KeyingMaterial(sources) == Flat(chunks)
  {
    hide Validate, Sort, Concat, SourceFits, SourceOk, Utf8, Below, Flat, ChunksOf, UniqueIds;
    ValidateMeans(sources);
    SortedFits(sources);
    ordered := Sort(sources, IdBytes);
    chunks := ConcatFlat(ordered);
    SortMeans(sources, IdBytes);
    UniqueAnyOrder(sources, ordered);
    IdsDiffer(ordered);
  }

  lemma IdsDiffer(ordered: seq<Source>)
    requires UniqueIds(ordered) && InOrder(ordered, IdBytes)
    ensures forall i, j :: 0 <= i < j < |ordered| ==> Below(Utf8(ordered[i].id), Utf8(ordered[j].id))
  {
    hide Utf8, Below;
    forall i, j | 0 <= i < j < |ordered|
      ensures Below(Utf8(ordered[i].id), Utf8(ordered[j].id))
    {
      if Utf8(ordered[i].id) == Utf8(ordered[j].id) {
        Utf8Injective(ordered[i].id, ordered[j].id);
      }
      assert Utf8(ordered[i].id) == IdBytes(ordered[i]) && Utf8(ordered[j].id) == IdBytes(ordered[j]);
    }
  }

  /** One character of each length, from the table of RFC 3629 section 7. */
  lemma Utf8Examples()
    ensures Utf8Char('A') == [0x41] && Utf8Char('\U{0391}') == [0xCE, 0x91]
    ensures Utf8Char('\U{D55C}') == [0xED, 0x95, 0x9C] && Utf8Char('\U{233B4}') == [0xF0, 0xA3, 0x8E, 0xB4]
  {
  }

  lemma UniqueIdsDecide(sources: seq<Source>)
    requires UniqueIds(sources)
    ensures KeyDecides(sources, IdBytes)
  {
    forall x, y | x in sources && y in sources && IdBytes(x) == IdBytes(y)
      ensures x == y
    {
      Utf8Injective(x.id, y.id);
      var i :| 0 <= i < |sources| && sources[i] == x;
      var j :| 0 <= j < |sources| && sources[j] == y;
      assert !(i < j) && !(j < i);
    }
  }

  /**
   * Two validated lists give the same keying material if and only if they are
   * the same sources in some order: the order of collection never matters, and
   * nothing else is ever confused.
   */
  lemma KeyingMaterialDecides(a: seq<Source>, b: seq<Source>)
    requires Validate(a).None? && Validate(b).None?
    ensures KeyingMaterial(a) == KeyingMaterial(b) <==> multiset(a) == multiset(b)
  {
    hide Validate, Sort, Concat, SourceFits, SourceOk, IdBytes;
    ValidateMeans(a);
    ValidateMeans(b);
    SortedFits(a);
    SortedFits(b);
    UniqueIdsDecide(a);
    if multiset(a) == multiset(b) {
      SortIgnoresOrder(a, b, IdBytes);
    }
    if KeyingMaterial(a) == KeyingMaterial(b) {
      ConcatInjective(Sort(a, IdBytes), Sort(b, IdBytes));
      SortBag(a, IdBytes);
      SortBag(b, IdBytes);
    }
  }

  /** combineEntropy, with HKDF over the keying material as a parameter. */
  function CombineEntropy(hkdf: seq<byte> -> seq<byte>, sources: seq<Source>): Result<seq<byte>, EntropyError> {
    if Validate(sources).Some? then Err(Validate(sources).value) else Ok(hkdf(KeyingMaterial(sources)))
  }

  /** What is derived: the extraction of exactly that arrangement of the sources. */
  lemma CombineMeans(hkdf: seq<byte> -> seq<byte>, sources: seq<Source>) returns (ordered: seq<Source>, chunks: seq<seq<byte>>)
    requires Validate(sources).None?
    ensures Arranged(sources, ordered) && ChunksOf(ordered, chunks)
    ensures CombineEntropy(hkdf, sources) == Ok(hkdf(Flat(chunks)))
  {
    ordered, chunks := KeyingMaterialMeans(sources);
  }

  lemma ValidAnyOrder(a: seq<Source>, b: seq<Source>)
    requires multiset(a) == multiset(b) && Validate(a).None?
    ensures Validate(b).None?
  {
    hide Validate, SourceOk;
    ValidateMeans(a);
    ValidateMeans(b);
    assert |a| == |multiset(a)| == |multiset(b)| == |b|;
    forall i | 0 <= i < |b|
      ensures SourceOk(b[i])
    {
      BagMember(b[i], b, a);
    }
    UniqueAnyOrder(a, b);
  }

  lemma UniqueAnyOrder(a: seq<Source>, b: seq<Source>)
    requires multiset(a) == multiset(b) && UniqueIds(a)
    ensures UniqueIds(b)
  {
    forall i, j | 0 <= i < j < |b|
      ensures b[i].id != b[j].id
    {
      if b[i].id == b[j].id {
        BagMember(b[i], b, a);
        BagMember(b[j], b, a);
        var x :| 0 <= x < |a| && a[x] == b[i];
        var y :| 0 <= y < |a| && a[y] == b[j];
        assert !(x < y) && !(y < x);
        assert b[i] == b[j];
        TwiceInBag(b, i, j);
        OnceInBag(a, x);
      }
    }
  }

  /** The order of collection cannot change the seed, nor whether there is one. */
  lemma CombineAnyOrder(hkdf: seq<byte> -> seq<byte>, a: seq<Source>, b: seq<Source>)
    requires multiset(a) == multiset(b)
    ensures Agree(CombineEntropy(hkdf, a), CombineEntropy(hkdf, b))
  {
    hide Validate, KeyingMaterial;
    if Validate(a).None? {
      ValidAnyOrder(a, b);
      KeyingMaterialDecides(a, b);
    } else if Validate(b).None? {
      ValidAnyOrder(b, a);
    }
  }
}
