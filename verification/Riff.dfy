/**
 Files of stored objects: a RIFF container with a name chunk and one chunk per object.

 Opening, naming and backing up files is not part of this model, and neither is a chunk whose size
 carries the 32-bit file position past its end.
 */
module Riff {
  import opened Bytes
  import opened Objects

  const RIFF_TAG: seq<byte> := [0x52, 0x49, 0x46, 0x46]    // "RIFF"
  const FORMAT_TAG: seq<byte> := [0x4d, 0x42, 0x4b, 0x53]  // "MBKS"
  const NAME_TAG: seq<byte> := [0x6e, 0x61, 0x6d, 0x65]    // "name"
  const OBJECT_TAG: seq<byte> := [0x6f, 0x62, 0x6a, 0x20]  // "obj "

  // ---- Little-endian sizes ----

  function Le32(n: nat): (bytes: seq<byte>)
    requires n < 0x1_0000_0000
    ensures |bytes| == 4
  {
    var a := n / 0x100;
    var b := a / 0x100;
    [(n % 0x100) as byte, (a % 0x100) as byte, (b % 0x100) as byte, (b / 0x100) as byte]
  }

  function FromLe32(bytes: seq<byte>): (n: nat)
    requires |bytes| == 4
    ensures n < 0x1_0000_0000
  {
    bytes[0] as nat + 0x100 * bytes[1] as nat + 0x1_0000 * bytes[2] as nat + 0x100_0000 * bytes[3] as nat
  }

  lemma Le32Inverse(n: nat)
    requires n < 0x1_0000_0000
    ensures FromLe32(Le32(n)) == n
  {
  }

  // ---- The format ----

  datatype Chunk = Chunk(id: seq<byte>, payload: seq<byte>)

  predicate IsChunk(c: Chunk) {
    |c.id| == 4 && |c.payload| < 0x1_0000_0000
  }

  function ChunkBytes(c: Chunk): (bytes: seq<byte>)
    requires IsChunk(c)
    ensures |bytes| == 8 + |c.payload|
  {
    c.id + Le32(|c.payload|) + c.payload
  }

  function Flatten(chunks: seq<Chunk>): seq<byte>
    requires forall c :: c in chunks ==> IsChunk(c)
  {
    if chunks == [] then [] else ChunkBytes(chunks[0]) + Flatten(chunks[1..])
  }

  lemma {:induction false} FlattenInTwo(a: seq<Chunk>, b: seq<Chunk>)
    requires (forall c :: c in a ==> IsChunk(c)) && (forall c :: c in b ==> IsChunk(c))
    ensures Flatten(a + b) == Flatten(a) + Flatten(b)
  {
    hide ChunkBytes, IsChunk;
    if a == [] {
      assert a + b == b;
    } else {
      assert (a + b)[0] == a[0] && (a + b)[1..] == a[1..] + b;
      FlattenInTwo(a[1..], b);
    }
  }

  function NameChunk(name: seq<byte>): (c: Chunk)
    requires |name| == NAME_SIZE
    ensures IsChunk(c)
  {
    Chunk(NAME_TAG, name)
  }

  function ObjectChunk(m: Memory, l: Location): (c: Chunk)
    requires WellFormed(m) && Addressable(l.kind, l.part)
    ensures IsChunk(c) && |c.payload| == 4 + SizeOf(l.kind)
  {
    Chunk(OBJECT_TAG, [Number(l.kind) + 1, l.alias, 0, 0] + Read(m, l.kind, l.part))
  }

  /** So do the first two bytes of a chunk. */
  lemma ChunkNamesItsObject(m: Memory, l: Location)
    requires WellFormed(m) && Addressable(l.kind, l.part)
    ensures |ObjectChunk(m, l).payload| >= 4 && ObjectChunk(m, l).payload[1] == l.alias
    ensures ObjectChunk(m, l).payload[0] ==
            match l.kind
            case Patch => 1
            case Sequence => 2
            case Program => 3
            case Multi => 4
            case Settings => 5
  {
  }

  function ObjectChunks(m: Memory, objects: seq<Location>): (chunks: seq<Chunk>)
    requires WellFormed(m) && forall l :: l in objects ==> Addressable(l.kind, l.part)
    ensures |chunks| == |objects|
    ensures forall i :: 0 <= i < |chunks| ==> chunks[i] == ObjectChunk(m, objects[i])
    ensures forall c :: c in chunks ==> IsChunk(c)
  {
    seq(|objects|, i requires 0 <= i < |objects| => ObjectChunk(m, objects[i]))
  }

  /** `riff_size`. */
  function RiffSize(kind: Kind): nat {
    match kind
    case Multi => (PATCH_SIZE + 12 + SETTINGS_SIZE + 12) * NUM_PARTS + MULTI_SIZE + 12
    case Program => PATCH_SIZE + 12 + SETTINGS_SIZE + 12
    case _ => SizeOf(kind) + 12
  }

  function FileOf(m: Memory, kind: Kind, part: nat, name: seq<byte>): seq<byte>
    requires WellFormed(m) && part < NUM_PARTS && |name| == NAME_SIZE
  {
    RIFF_TAG + Le32(4 + 24 + RiffSize(kind)) + FORMAT_TAG +
        Flatten([NameChunk(name)] + ObjectChunks(m, ObjectsOf(kind, part)))
  }

  /** The fixed places of a file: both tags, the name chunk with its size, and the first object chunk behind it. */
  lemma FileBegins(m: Memory, kind: Kind, part: nat, name: seq<byte>)
    requires WellFormed(m) && part < NUM_PARTS && |name| == NAME_SIZE
    ensures var file := FileOf(m, kind, part, name);
            && |file| >= 40
            && file[..4] == RIFF_TAG && file[8..12] == FORMAT_TAG
            && file[12..16] == NAME_TAG && file[16..20] == [16, 0, 0, 0] && file[20..36] == name
            && file[36..40] == OBJECT_TAG
  {
    hide *;
    SizeFits(kind);
    ObjectsBegin(m, kind, part);
    NameBegins(name);
    var objects := ObjectChunks(m, ObjectsOf(kind, part));
    FileInParts(m, kind, part, name);
    Places(Le32(4 + 24 + RiffSize(kind)), [16, 0, 0, 0], name, Flatten(objects));
  }

  lemma FileInParts(m: Memory, kind: Kind, part: nat, name: seq<byte>)
    requires WellFormed(m) && part < NUM_PARTS && |name| == NAME_SIZE
    ensures 4 + 24 + RiffSize(kind) < 0x1_0000_0000
    ensures FileOf(m, kind, part, name) ==
            RIFF_TAG + Le32(4 + 24 + RiffSize(kind)) + FORMAT_TAG +
            (ChunkBytes(NameChunk(name)) + Flatten(ObjectChunks(m, ObjectsOf(kind, part))))
  {
    hide Le32, ChunkBytes, ObjectsOf, ObjectChunk;
    var objects := ObjectChunks(m, ObjectsOf(kind, part));
    assert ([NameChunk(name)] + objects)[1..] == objects;
  }

  lemma NameBegins(name: seq<byte>)
    requires |name| == NAME_SIZE
    ensures ChunkBytes(NameChunk(name)) == NAME_TAG + [16, 0, 0, 0] + name && NAME_SIZE == 16
    ensures |RIFF_TAG| == |FORMAT_TAG| == |NAME_TAG| == |OBJECT_TAG| == 4
  {
    assert Le32(NAME_SIZE) == [16, 0, 0, 0];
    hide Le32;
  }

  lemma ObjectsBegin(m: Memory, kind: Kind, part: nat)
    requires WellFormed(m) && part < NUM_PARTS
    ensures forall l :: l in ObjectsOf(kind, part) ==> Addressable(l.kind, l.part)
    ensures var bytes := Flatten(ObjectChunks(m, ObjectsOf(kind, part))); |bytes| >= 4 && bytes[..4] == OBJECT_TAG
  {
    hide Read, PartsFrom, Le32;
    var objects := ObjectsOf(kind, part);
    assert objects != [];
    var first := ObjectChunk(m, objects[0]);
    assert ObjectChunks(m, objects)[0] == first;
    assert ChunkBytes(first)[..4] == OBJECT_TAG;
  }

  lemma Places(size: seq<byte>, length: seq<byte>, name: seq<byte>, rest: seq<byte>)
    requires |size| == 4 == |length| && |name| == 16 && |rest| >= 4
    requires |RIFF_TAG| == |FORMAT_TAG| == |NAME_TAG| == 4
    ensures var file := RIFF_TAG + size + FORMAT_TAG + (NAME_TAG + length + name + rest);
            && |file| >= 40 && file[..4] == RIFF_TAG && file[8..12] == FORMAT_TAG
            && file[12..16] == NAME_TAG && file[16..20] == length && file[20..36] == name && file[36..40] == rest[..4]
  {
    hide *;
  }

  lemma SizeFits(kind: Kind)
    ensures 4 + 24 + RiffSize(kind) < 0x1_0000_0000
  {
  }

  // ---- Loading, as a function of the bytes that are left ----

  datatype Request = Request(part: nat, contents: bool, named: bool)

  /** `Fault`: a write through a null or foreign pointer, which is not part of this model. */
  datatype Progress = Progress(rest: seq<byte>, id: seq<byte>, size: seq<byte>, memory: Memory, name: seq<byte>) | Fault

  ghost predicate IsProgress(p: Progress) {
    p.Progress? ==> |p.id| == 4 && |p.size| == 4 && |p.name| == NAME_SIZE && WellFormed(p.memory)
  }

  function Least(a: nat, b: nat): (r: nat)
    ensures r <= a && r <= b && (r == a || r == b)
  {
    if a < b then a else b
  }

  /** A buffer after reading into it: a short read leaves its end as it was. */
  function ReadInto(buffer: seq<byte>, rest: seq<byte>): (r: seq<byte>)
    ensures |r| == |buffer|
  {
    var k := Least(|buffer|, |rest|);
    rest[..k] + buffer[k..]
  }

  /** Seeking beyond the end stops there. */
  function Past(rest: seq<byte>, n: nat): (r: seq<byte>)
    ensures |r| == |rest| - Least(n, |rest|)
  {
    rest[Least(n, |rest|)..]
  }

  /** `object_size` of a number from a file. */
  function ExpectedSize(number: byte): nat {
    if 1 <= number <= 5 then SizeOf(KindOf(number - 1)) else 0
  }

  function LoadObject(p: Progress, size: nat, q: Request): (r: Progress)
    requires p.Progress? && IsProgress(p)
    ensures IsProgress(r) && (r.Progress? ==> |r.rest| <= |p.rest|)
  {
    var id := ReadInto(p.id, p.rest);
    var rest := Past(p.rest, 4);
    var part := if id[1] == 0 then q.part else id[1] as nat - 1;
    if size < 4 || ExpectedSize(id[0]) != size - 4 then Progress(Past(rest, size), id, p.size, p.memory, p.name)
    else if !(1 <= id[0] <= 5) then Progress(rest, id, p.size, p.memory, p.name)
    else
      var kind := KindOf(id[0] - 1);
      if !Addressable(kind, part) then Fault
      else
        var data := ReadInto(Read(p.memory, kind, part), rest);
        Progress(Past(rest, SizeOf(kind)), id, p.size, Write(p.memory, kind, part, data), p.name)
  }

  function LoadName(p: Progress, size: nat): (r: Progress)
    requires p.Progress? && IsProgress(p)
    ensures r.Progress? && IsProgress(r) && |r.rest| <= |p.rest|
  {
    var n := Least(size, NAME_SIZE);
    Progress(Past(Past(p.rest, n), size - n), p.id, p.size, p.memory, ReadInto(p.name[..n], p.rest) + p.name[n..])
  }

  function LoadChunk(p: Progress, q: Request): (r: Progress)
    requires p.Progress? && IsProgress(p) && p.rest != []
    ensures IsProgress(r) && (r.Progress? ==> |r.rest| < |p.rest|)
  {
    var id := ReadInto(p.id, p.rest);
    var rest := Past(p.rest, 4);
    var size := ReadInto(p.size, rest);
    var p' := Progress(Past(rest, 4), id, size, p.memory, p.name);
    if id == OBJECT_TAG && q.contents then LoadObject(p', FromLe32(size), q)
    else if id == NAME_TAG && q.named then LoadName(p', FromLe32(size))
    else p'.(rest := Past(p'.rest, FromLe32(size)))
  }

  function LoadChunks(p: Progress, q: Request): (r: Progress)
    requires IsProgress(p)
    ensures IsProgress(r)
    decreases if p.Progress? then |p.rest| else 0
  {
    if p.Fault? || p.rest == [] then p else LoadChunks(LoadChunk(p, q), q)
  }

  datatype Status = Loaded | BadFormat | Broken

  /** `id` and `size` are whatever the buffers held before. */
  function LoadFile(
      bytes: seq<byte>, id: seq<byte>, size: seq<byte>, m: Memory, name: seq<byte>, kind: Kind, q: Request)
    : (r: (Status, Memory, seq<byte>))
    requires |id| == 4 && |size| == 4 && |name| == NAME_SIZE && WellFormed(m)
    ensures WellFormed(r.1) && |r.2| == NAME_SIZE
  {
    var id := ReadInto(id, bytes);
    if id != RIFF_TAG then (BadFormat, m, name)
    else
      var size := ReadInto(size, Past(bytes, 4));
      var id := ReadInto(id, Past(bytes, 8));
      if id != FORMAT_TAG then (BadFormat, m, name)
      else
        var p := LoadChunks(Progress(Past(bytes, 12), id, size, m, name), q);
        if p.Fault? then (Broken, m, name)
        else (Loaded, if q.contents && kind.Multi? then Touch(p.memory) else p.memory, p.name)
  }

  /** A file is refused exactly when its twelve bytes of header are not there with both tags; nothing is then loaded. */
  lemma RefusedExactly(
      bytes: seq<byte>, id: seq<byte>, size: seq<byte>, m: Memory, name: seq<byte>, kind: Kind, q: Request)
    requires |id| == 4 && |size| == 4 && |name| == NAME_SIZE && WellFormed(m)
    ensures var (status, memory, loaded) := LoadFile(bytes, id, size, m, name, kind, q);
            && (status == BadFormat <==>
                !(|bytes| >= 12 && bytes[..4] == [0x52, 0x49, 0x46, 0x46] && bytes[8..12] == [0x4d, 0x42, 0x4b, 0x53]))
            && (status != Loaded ==> memory == m && loaded == name)
  {
    hide LoadChunks, Touch;
    HeaderRead(id, bytes);
    HeaderRead(RIFF_TAG, Past(bytes, 8));
    var format := ReadInto(RIFF_TAG, Past(bytes, 8));
    if |bytes| < 12 {
      assert format[3] == 0x46;
    } else {
      assert Past(bytes, 8)[..4] == bytes[8..12];
    }
    hide ReadInto, Past;
  }

  lemma HeaderRead(id: seq<byte>, bytes: seq<byte>)
    requires |id| == 4
    ensures |bytes| >= 4 ==> ReadInto(id, bytes) == bytes[..4]
    ensures |bytes| < 4 ==> ReadInto(id, bytes)[3] == id[3]
  {
  }

  // ---- What a chunk does ----

  datatype Effect = Effect(memory: Memory, name: seq<byte>) | Faults

  /** Chunks that are read as far as they go: an object of the size its number calls for, or anything else. */
  predicate Fits(c: Chunk, q: Request) {
    IsChunk(c) &&
    (c.id == OBJECT_TAG && q.contents ==> |c.payload| >= 4 && |c.payload| == 4 + ExpectedSize(c.payload[0]))
  }

  predicate IsIgnored(c: Chunk, q: Request) {
    IsChunk(c) && !(c.id == OBJECT_TAG && q.contents) && !(c.id == NAME_TAG && q.named)
  }

  function Apply(c: Chunk, q: Request, m: Memory, name: seq<byte>): (r: Effect)
    requires Fits(c, q) && WellFormed(m) && |name| == NAME_SIZE
    ensures r.Effect? ==> WellFormed(r.memory) && |r.name| == NAME_SIZE
  {
    if c.id == OBJECT_TAG && q.contents then
      if !(1 <= c.payload[0] <= 5) then Effect(m, name)
      else
        var kind := KindOf(c.payload[0] - 1);
        var part := if c.payload[1] == 0 then q.part else c.payload[1] as nat - 1;
        if Addressable(kind, part) then Effect(Write(m, kind, part, c.payload[4..]), name) else Faults
    else if c.id == NAME_TAG && q.named then
      var n := Least(|c.payload|, NAME_SIZE);
      Effect(m, c.payload[..n] + name[n..])
    else Effect(m, name)
  }

  /** A name chunk brings the letters that it has room for; a short one leaves the end of the old name. */
  lemma NameChunkBringsLetters(c: Chunk, q: Request, m: Memory, name: seq<byte>)
    requires Fits(c, q) && WellFormed(m) && |name| == NAME_SIZE && c.id == NAME_TAG && q.named
    ensures var r := Apply(c, q, m, name);
            && r.Effect? && r.memory == m && |r.name| == NAME_SIZE
            && forall i :: 0 <= i < NAME_SIZE ==> r.name[i] == if i < |c.payload| then c.payload[i] else name[i]
  {
  }

  function ApplyAll(chunks: seq<Chunk>, q: Request, m: Memory, name: seq<byte>): (r: Effect)
    requires (forall c :: c in chunks ==> Fits(c, q)) && WellFormed(m) && |name| == NAME_SIZE
    ensures r.Effect? ==> WellFormed(r.memory) && |r.name| == NAME_SIZE
    decreases |chunks|
  {
    if chunks == [] then Effect(m, name)
    else
      var first := Apply(chunks[0], q, m, name);
      if first.Faults? then Faults else ApplyAll(chunks[1..], q, first.memory, first.name)
  }

  /** Where a chunk leaves the loader. */
  ghost predicate Leaves(p: Progress, e: Effect, rest: seq<byte>) {
    if e.Faults? then p.Fault? else p.Progress? && p.rest == rest && p.memory == e.memory && p.name == e.name
  }

  lemma ReadPrefix(buffer: seq<byte>, data: seq<byte>, tail: seq<byte>)
    requires |buffer| == |data|
    ensures ReadInto(buffer, data + tail) == data && Past(data + tail, |data|) == tail
  {
  }

  lemma ChunkHeader(p: Progress, c: Chunk, tail: seq<byte>)
    requires p.Progress? && IsProgress(p) && IsChunk(c) && p.rest == ChunkBytes(c) + tail
    ensures ReadInto(p.id, p.rest) == c.id && ReadInto(p.size, Past(p.rest, 4)) == Le32(|c.payload|)
    ensures Past(Past(p.rest, 4), 4) == c.payload + tail && FromLe32(Le32(|c.payload|)) == |c.payload|
  {
    hide Le32, FromLe32, ReadInto, Past;
    Le32Inverse(|c.payload|);
    var size := Le32(|c.payload|);
    assert p.rest == c.id + (size + (c.payload + tail));
    ReadPrefix(p.id, c.id, size + (c.payload + tail));
    ReadPrefix(p.size, size, c.payload + tail);
  }

  lemma ObjectLoaded(p: Progress, c: Chunk, tail: seq<byte>, q: Request)
    requires p.Progress? && IsProgress(p) && Fits(c, q)
    requires c.id == OBJECT_TAG && q.contents && p.rest == c.payload + tail
    ensures Leaves(LoadObject(p, |c.payload|, q), Apply(c, q, p.memory, p.name), tail)
  {
    hide Past, ReadInto, Read, Write;
    var head, data := c.payload[..4], c.payload[4..];
    assert p.rest == head + (data + tail);
    ReadPrefix(p.id, head, data + tail);
    if 1 <= head[0] <= 5 {
      var kind := KindOf(head[0] - 1);
      var part := if head[1] == 0 then q.part else head[1] as nat - 1;
      if Addressable(kind, part) {
        ReadPrefix(Read(p.memory, kind, part), data, tail);
      }
    } else {
      assert data + tail == tail;
    }
  }

  lemma NameLoaded(p: Progress, c: Chunk, tail: seq<byte>, q: Request)
    requires p.Progress? && IsProgress(p) && IsChunk(c) && c.id == NAME_TAG && q.named && p.rest == c.payload + tail
    ensures Leaves(LoadName(p, |c.payload|), Apply(c, q, p.memory, p.name), tail)
  {
    hide Past, ReadInto;
    var n := Least(|c.payload|, NAME_SIZE);
    var head, data := c.payload[..n], c.payload[n..];
    assert p.rest == head + (data + tail);
    ReadPrefix(p.name[..n], head, data + tail);
    ReadPrefix(data, data, tail);
  }

  /** A chunk that fits is read to its end and has its effect. */
  lemma ChunkLoaded(p: Progress, c: Chunk, tail: seq<byte>, q: Request)
    requires p.Progress? && IsProgress(p) && Fits(c, q) && p.rest == ChunkBytes(c) + tail
    ensures Leaves(LoadChunk(p, q), Apply(c, q, p.memory, p.name), tail)
  {
    ChunkHeader(p, c, tail);
    hide Past, ReadInto, ChunkBytes, Le32, FromLe32, Apply, LoadObject, LoadName;
    var p' := Progress(c.payload + tail, c.id, Le32(|c.payload|), p.memory, p.name);
    if c.id == OBJECT_TAG && q.contents {
      ObjectLoaded(p', c, tail, q);
    } else if c.id == NAME_TAG && q.named {
      NameLoaded(p', c, tail, q);
    } else {
      ReadPrefix(c.payload, c.payload, tail);
      IgnoredHasNoEffect(c, q, p.memory, p.name);
    }
  }

  lemma IgnoredHasNoEffect(c: Chunk, q: Request, m: Memory, name: seq<byte>)
    requires IsIgnored(c, q) && WellFormed(m) && |name| == NAME_SIZE
    ensures Apply(c, q, m, name) == Effect(m, name)
  {
  }

  /** Loading a list of chunks is applying them one after the other. */
  lemma {:induction false} ChunksLoaded(p: Progress, chunks: seq<Chunk>, q: Request)
    requires p.Progress? && IsProgress(p) && forall c :: c in chunks ==> IsChunk(c) && Fits(c, q)
    requires p.rest == Flatten(chunks)
    ensures Leaves(LoadChunks(p, q), ApplyAll(chunks, q, p.memory, p.name), [])
    decreases |chunks|
  {
    hide LoadChunk, Apply, ChunkBytes, IsProgress;
    if chunks != [] {
      ChunkLoaded(p, chunks[0], Flatten(chunks[1..]), q);
      var next := LoadChunk(p, q);
      if next.Progress? {
        ChunksLoaded(next, chunks[1..], q);
      }
    }
  }

  // ---- Unknown chunks ----

  function WithoutIgnored(chunks: seq<Chunk>, q: Request): (r: seq<Chunk>)
    ensures forall c :: c in r ==> c in chunks
  {
    if chunks == [] then []
    else (if IsIgnored(chunks[0], q) then [] else [chunks[0]]) + WithoutIgnored(chunks[1..], q)
  }

  /** Chunks of other kinds, wherever they are inserted, change nothing. */
  lemma {:induction false} IgnoredChunksDoNotMatter(chunks: seq<Chunk>, q: Request, m: Memory, name: seq<byte>)
    requires (forall c :: c in chunks ==> Fits(c, q)) && WellFormed(m) && |name| == NAME_SIZE
    ensures ApplyAll(WithoutIgnored(chunks, q), q, m, name) == ApplyAll(chunks, q, m, name)
    decreases |chunks|
  {
    if chunks != [] {
      hide Apply, Fits, IsIgnored;
      var c, rest := chunks[0], WithoutIgnored(chunks[1..], q);
      var first := Apply(c, q, m, name);
      if first.Effect? {
        IgnoredChunksDoNotMatter(chunks[1..], q, first.memory, first.name);
      }
      if IsIgnored(c, q) {
        IgnoredHasNoEffect(c, q, m, name);
        assert WithoutIgnored(chunks, q) == rest;
      } else {
        assert WithoutIgnored(chunks, q)[0] == c && WithoutIgnored(chunks, q)[1..] == rest;
      }
    }
  }

  // ---- Saving and loading ----

  lemma {:induction false} FlatSize(m: Memory, objects: seq<Location>)
    requires WellFormed(m) && forall l :: l in objects ==> Addressable(l.kind, l.part)
    ensures |Flatten(ObjectChunks(m, objects))| == TotalSize(objects)
  {
    if objects != [] {
      FlatSize(m, objects[1..]);
      assert ObjectChunks(m, objects)[1..] == ObjectChunks(m, objects[1..]);
    }
  }

  function TotalSize(objects: seq<Location>): nat {
    if objects == [] then 0 else 12 + SizeOf(objects[0].kind) + TotalSize(objects[1..])
  }

  lemma TwoMore(a: Location, b: Location, rest: seq<Location>)
    ensures TotalSize([a, b] + rest) == 12 + SizeOf(a.kind) + 12 + SizeOf(b.kind) + TotalSize(rest)
  {
    var objects := [a, b] + rest;
    assert objects[1..][0] == b && objects[1..][1..] == rest;
  }

  lemma {:induction false} PartsSize(i: nat)
    requires i <= NUM_PARTS
    ensures TotalSize(PartsFrom(i)) == (NUM_PARTS - i) * (12 + PATCH_SIZE + 12 + SETTINGS_SIZE)
    decreases NUM_PARTS - i
  {
    if i < NUM_PARTS {
      hide TotalSize;
      PartsSize(i + 1);
      TwoMore(Location(Patch, i, (i + 1) as byte), Location(Settings, i, (i + 1) as byte), PartsFrom(i + 1));
    }
  }

  lemma ObjectsSize(kind: Kind, part: nat)
    ensures TotalSize(ObjectsOf(kind, part)) == RiffSize(kind)
  {
    hide PartsFrom;
    var objects := ObjectsOf(kind, part);
    if kind.Multi? {
      PartsSize(0);
      assert objects[1..] == PartsFrom(0);
    } else if kind.Program? {
      assert objects[1..] == [objects[1]] && [objects[1]][1..] == [];
      assert TotalSize([objects[1]]) == 12 + SETTINGS_SIZE;
    } else {
      assert objects[1..] == [];
    }
  }

  /** The size in the header is the number of bytes that follow it. */
  lemma HeaderSizeIsExact(m: Memory, kind: Kind, part: nat, name: seq<byte>)
    requires WellFormed(m) && part < NUM_PARTS && |name| == NAME_SIZE
    ensures var file := FileOf(m, kind, part, name); FromLe32(file[4..8]) == |file| - 8
  {
    hide ObjectsOf, RiffSize, FromLe32, Le32, Flatten, ObjectChunks;
    var file := FileOf(m, kind, part, name);
    assert RiffSize(kind) <= 1388 by {
      SizeIsSmall(kind);
    }
    assert file[4..8] == Le32(4 + 24 + RiffSize(kind));
    Le32Inverse(4 + 24 + RiffSize(kind));
    FileSize(m, kind, part, name);
  }

  lemma SizeIsSmall(kind: Kind)
    ensures RiffSize(kind) <= 1388
  {
  }

  lemma FileSize(m: Memory, kind: Kind, part: nat, name: seq<byte>)
    requires WellFormed(m) && part < NUM_PARTS && |name| == NAME_SIZE
    ensures |FileOf(m, kind, part, name)| == 12 + 24 + RiffSize(kind)
  {
    var objects := ObjectsOf(kind, part);
    hide ObjectsOf;
    FlatSize(m, objects);
    ObjectsSize(kind, part);
    var chunks := ObjectChunks(m, objects);
    assert ([NameChunk(name)] + chunks)[1..] == chunks;
  }

  /** The object's chunk writes it where it belongs. */
  lemma ObjectChunkApplied(w: Memory, name: seq<byte>, m: Memory, l: Location, q: Request)
    requires WellFormed(w) && WellFormed(m) && |name| == NAME_SIZE && q.contents && Addressable(l.kind, l.part)
    requires Addressable(l.kind, Target(l, q))
    ensures var c := ObjectChunk(m, l);
            Fits(c, q) && Apply(c, q, w, name) == Effect(Write(w, l.kind, Target(l, q), Read(m, l.kind, l.part)), name)
  {
    KindOfNumber(l.kind);
    var c := ObjectChunk(m, l);
    assert c.payload[4..] == Read(m, l.kind, l.part);
  }

  function Target(l: Location, q: Request): nat {
    if l.alias == 0 then q.part else l.alias as nat - 1
  }

  lemma PartApplied(w: Memory, name: seq<byte>, m: Memory, i: nat, rest: seq<Chunk>, q: Request)
    requires WellFormed(w) && WellFormed(m) && |name| == NAME_SIZE && q.contents && i < NUM_PARTS
    requires forall c :: c in rest ==> Fits(c, q)
    ensures var two := [ObjectChunk(m, Location(Patch, i, (i + 1) as byte)),
            ObjectChunk(m, Location(Settings, i, (i + 1) as byte))];
            && (forall c :: c in two + rest ==> Fits(c, q))
            && ApplyAll(two + rest, q, w, name) == ApplyAll(rest, q, w.(parts := w.parts[i := m.parts[i]]), name)
  {
    hide Apply, Fits, ObjectChunk, Read, Write;
    var patch, settings := Location(Patch, i, (i + 1) as byte), Location(Settings, i, (i + 1) as byte);
    ObjectChunkApplied(w, name, m, patch, q);
    ObjectChunkApplied(Write(w, Patch, i, Read(m, Patch, i)), name, m, settings, q);
    PatchAndSettingsArePart(w, i, m, i);
    var all := [ObjectChunk(m, patch), ObjectChunk(m, settings)] + rest;
    assert all[1..][0] == ObjectChunk(m, settings) && all[1..][1..] == rest;
  }

  lemma PartChunks(m: Memory, i: nat)
    requires WellFormed(m) && i < NUM_PARTS
    ensures ObjectChunks(m, PartsFrom(i)) ==
            [ObjectChunk(m, Location(Patch, i, (i + 1) as byte)),
                ObjectChunk(m, Location(Settings, i, (i + 1) as byte))] + ObjectChunks(m, PartsFrom(i + 1))
  {
  }

  lemma PartsAreAddressable(i: nat)
    requires i <= NUM_PARTS
    ensures forall l :: l in PartsFrom(i) ==> Addressable(l.kind, l.part)
  {
    hide PartsFrom;
  }

  lemma NoPartsLeft(w: Memory, name: seq<byte>, m: Memory, q: Request)
    requires WellFormed(w) && WellFormed(m) && |name| == NAME_SIZE
    requires forall j :: 0 <= j < NUM_PARTS ==> w.parts[j] == m.parts[j]
    ensures ObjectChunks(m, PartsFrom(NUM_PARTS)) == []
    ensures ApplyAll([], q, w, name) == Effect(w.(parts := m.parts), name)
  {
    assert w.parts == m.parts;
  }

  lemma {:induction false} PartsApplied(w: Memory, name: seq<byte>, m: Memory, i: nat, q: Request)
    requires WellFormed(w) && WellFormed(m) && |name| == NAME_SIZE && q.contents && i <= NUM_PARTS
    requires forall j :: 0 <= j < i ==> w.parts[j] == m.parts[j]
    ensures forall c :: c in ObjectChunks(m, PartsFrom(i)) ==> Fits(c, q)
    ensures ApplyAll(ObjectChunks(m, PartsFrom(i)), q, w, name) == Effect(w.(parts := m.parts), name)
    decreases NUM_PARTS - i
  {
    hide *;
    SixParts(w, m);
    if i == NUM_PARTS {
      NoPartsLeft(w, name, m, q);
    } else {
      PartsApplied(w.(parts := w.parts[i := m.parts[i]]), name, m, i + 1, q);
      PartsAreAddressable(i + 1);
      PartApplied(w, name, m, i, ObjectChunks(m, PartsFrom(i + 1)), q);
      PartChunks(m, i);
    }
  }

  lemma ObjectsApplied(w: Memory, name: seq<byte>, m: Memory, kind: Kind, part: nat, q: Request)
    requires WellFormed(w) && WellFormed(m) && |name| == NAME_SIZE
    requires q.contents && part < NUM_PARTS && q.part < NUM_PARTS
    ensures var chunks := ObjectChunks(m, ObjectsOf(kind, part));
            && (forall c :: c in chunks ==> Fits(c, q))
            && var r := ApplyAll(chunks, q, w, name);
               r.Effect? && r.name == name && Restored(w, m, kind, part, q.part) ==
                   if kind.Multi? then Touch(r.memory) else r.memory
  {
    hide Apply, Fits, ObjectChunk, Read, Write, PartsFrom, Touch;
    var objects := ObjectsOf(kind, part);
    var chunks := ObjectChunks(m, objects);
    var w1 := Write(w, objects[0].kind, Target(objects[0], q), Read(m, objects[0].kind, part));
    ObjectChunkApplied(w, name, m, objects[0], q);
    if kind.Program? {
      ObjectChunkApplied(w1, name, m, objects[1], q);
      PatchAndSettingsArePart(w, q.part, m, part);
      assert chunks[1..] == [ObjectChunk(m, objects[1])];
      ApplyOne(ObjectChunk(m, objects[1]), q, w1, name);
    } else if kind.Multi? {
      PartsApplied(w1, name, m, 0, q);
      assert chunks[1..] == ObjectChunks(m, PartsFrom(0));
      MultiWritten(w, m, part, q.part);
    } else {
      assert chunks[1..] == [];
    }
  }

  lemma ApplyOne(c: Chunk, q: Request, m: Memory, name: seq<byte>)
    requires Fits(c, q) && WellFormed(m) && |name| == NAME_SIZE
    ensures ApplyAll([c], q, m, name) == Apply(c, q, m, name)
  {
    assert [c][1..] == [];
  }

  lemma MultiWritten(w: Memory, m: Memory, part: nat, target: nat)
    requires WellFormed(w) && WellFormed(m)
    ensures Write(w, Multi, target, Read(m, Multi, part)).(parts := m.parts) == m
  {
  }

  /** What is saved is what is loaded: every byte of the object and its name, and nothing else. */
  lemma SaveThenLoad(
      m: Memory, kind: Kind, part: nat, name: seq<byte>, w: Memory, oldName: seq<byte>, target: nat,
      id: seq<byte>, size: seq<byte>)
    requires WellFormed(m) && WellFormed(w) && part < NUM_PARTS && target < NUM_PARTS
    requires |name| == NAME_SIZE == |oldName| && |id| == 4 == |size|
    ensures LoadFile(FileOf(m, kind, part, name), id, size, w, oldName, kind, Request(target, true, true)) ==
            (Loaded, Restored(w, m, kind, part, target), name)
  {
    hide Apply, Fits, ObjectChunk, ObjectsOf, Restored, Touch, LoadChunks, ReadInto, Past, Flatten, RiffSize;
    var q := Request(target, true, true);
    var objects := ObjectChunks(m, ObjectsOf(kind, part));
    var chunks := [NameChunk(name)] + objects;
    SizeIsSmall(kind);
    FileHeader(id, size, Le32(4 + 24 + RiffSize(kind)), Flatten(chunks));
    ObjectsApplied(w, name, m, kind, part, q);
    NameApplied(name, w, oldName, q);
    assert chunks[1..] == objects;
    ChunksLoaded(Progress(Flatten(chunks), FORMAT_TAG, Le32(4 + 24 + RiffSize(kind)), w, oldName), chunks, q);
  }

  lemma NameApplied(name: seq<byte>, m: Memory, oldName: seq<byte>, q: Request)
    requires |name| == NAME_SIZE == |oldName| && WellFormed(m) && q.named
    ensures Fits(NameChunk(name), q) && Apply(NameChunk(name), q, m, oldName) == Effect(m, name)
  {
  }

  lemma FileHeader(id: seq<byte>, size: seq<byte>, bytes: seq<byte>, rest: seq<byte>)
    requires |id| == 4 == |size| && |bytes| == 4
    ensures var file := RIFF_TAG + bytes + FORMAT_TAG + rest;
            && ReadInto(id, file) == RIFF_TAG && ReadInto(size, Past(file, 4)) == bytes
            && ReadInto(RIFF_TAG, Past(file, 8)) == FORMAT_TAG && Past(file, 12) == rest
  {
  }

  /** The same with unknown chunks inserted anywhere, and whatever size the header gives. */
  lemma SaveInsertThenLoad(
      m: Memory, kind: Kind, part: nat, name: seq<byte>, w: Memory, oldName: seq<byte>, target: nat,
      id: seq<byte>, size: seq<byte>,
      chunks: seq<Chunk>, total: seq<byte>)
    requires WellFormed(m) && WellFormed(w) && part < NUM_PARTS && target < NUM_PARTS
    requires |name| == NAME_SIZE == |oldName| && |id| == 4 == |size| && |total| == 4
    requires forall c :: c in chunks ==> IsChunk(c) && Fits(c, Request(target, true, true))
    requires WithoutIgnored(chunks, Request(target, true, true)) ==
             [NameChunk(name)] + ObjectChunks(m, ObjectsOf(kind, part))
    ensures LoadFile(RIFF_TAG + total + FORMAT_TAG + Flatten(chunks), id, size, w, oldName, kind,
            Request(target, true, true)) ==
            (Loaded, Restored(w, m, kind, part, target), name)
  {
    hide Apply, ObjectChunk, ObjectsOf, Restored, Touch, LoadChunks, ReadInto, Past, Flatten, ObjectChunks;
    var q := Request(target, true, true);
    var objects := ObjectChunks(m, ObjectsOf(kind, part));
    FileHeader(id, size, total, Flatten(chunks));
    ObjectsApplied(w, name, m, kind, part, q);
    NameApplied(name, w, oldName, q);
    assert ([NameChunk(name)] + objects)[1..] == objects;
    IgnoredChunksDoNotMatter(chunks, q, w, oldName);
    ChunksLoaded(Progress(Flatten(chunks), FORMAT_TAG, total, w, oldName), chunks, q);
  }

  // ---- Object chunks of a wrong size ----

  /** They are not read, but the loader goes on four bytes too far. */
  lemma MisfitOvershoots(p: Progress, c: Chunk, tail: seq<byte>, q: Request)
    requires p.Progress? && IsProgress(p) && IsChunk(c) && p.rest == ChunkBytes(c) + tail
    requires c.id == OBJECT_TAG && q.contents && !Fits(c, q)
    ensures Leaves(LoadChunk(p, q), Effect(p.memory, p.name), Past(tail, 4))
    ensures LoadChunk(p, q).rest == tail <==> tail == []
  {
    hide *;
    IsMisfit(c, q);
    ObjectRead(p, c, tail, q);
    ObjectMisfit(Progress(c.payload + tail, c.id, Le32(|c.payload|), p.memory, p.name), c.payload, tail, q);
    Overshot(LoadChunk(p, q), p.memory, p.name, tail);
  }

  lemma IsMisfit(c: Chunk, q: Request)
    requires IsChunk(c) && c.id == OBJECT_TAG && q.contents
    ensures Fits(c, q) <==> |c.payload| >= 4 && |c.payload| == 4 + ExpectedSize(c.payload[0])
    ensures |c.payload| < 0x1_0000_0000
  {
  }

  lemma ObjectRead(p: Progress, c: Chunk, tail: seq<byte>, q: Request)
    requires p.Progress? && IsProgress(p) && IsChunk(c) && p.rest == ChunkBytes(c) + tail
    requires c.id == OBJECT_TAG && q.contents
    ensures var header := Progress(c.payload + tail, c.id, Le32(|c.payload|), p.memory, p.name);
            p.rest != [] && IsProgress(header) && LoadChunk(p, q) == LoadObject(header, |c.payload|, q)
  {
    hide Le32, FromLe32, LoadObject;
    ChunkHeader(p, c, tail);
  }

  /** Where the payload has a wrong size, its first four bytes are skipped twice. */
  lemma ObjectMisfit(p: Progress, payload: seq<byte>, tail: seq<byte>, q: Request)
    requires p.Progress? && IsProgress(p) && p.rest == payload + tail
    requires !(|payload| >= 4 && |payload| == 4 + ExpectedSize(payload[0]))
    ensures Leaves(LoadObject(p, |payload|, q), Effect(p.memory, p.name), Past(tail, 4))
  {
    hide Past, Read, Write;
    PastPayload(payload, tail);
    if |payload| >= 4 {
      FirstByte(p.id, payload + tail);
    }
  }

  lemma FirstByte(buffer: seq<byte>, rest: seq<byte>)
    requires |buffer| > 0 && rest != []
    ensures ReadInto(buffer, rest)[0] == rest[0]
  {
  }

  lemma Overshot(p: Progress, memory: Memory, name: seq<byte>, tail: seq<byte>)
    requires Leaves(p, Effect(memory, name), Past(tail, 4))
    ensures p.Progress? && (p.rest == tail <==> tail == [])
  {
  }

  lemma PastPayload(payload: seq<byte>, tail: seq<byte>)
    ensures Past(Past(payload + tail, 4), |payload|) == Past(tail, 4)
  {
    var n := Least(4, |tail|);
    assert (payload + tail)[|payload| + n..] == tail[n..];
    assert Past(Past(payload + tail, 4), |payload|) == (payload + tail)[|payload| + n..];
  }

  /** Sixteen bytes of text and the size before them, read as a chunk header, swallow the rest. */
  lemma NameReadAsChunk(p: Progress, name: seq<byte>, q: Request)
    requires p.Progress? && IsProgress(p) && |name| == NAME_SIZE && name[3] >= 0x20 && p.rest == Le32(NAME_SIZE) + name
    ensures Leaves(LoadChunk(p, q), Effect(p.memory, p.name), [])
  {
    ReadPrefix(p.id, Le32(NAME_SIZE), name);
    assert name == name[..4] + name[4..];
    ReadPrefix(p.size, name[..4], name[4..]);
    assert Le32(NAME_SIZE) == [16, 0, 0, 0];
    assert FromLe32(name[..4]) >= 12;
  }

  /** So the chunk after a misfit is lost: any name of text goes unread. */
  lemma MisfitHidesName(p: Progress, name: seq<byte>, q: Request)
    requires p.Progress? && IsProgress(p) && |name| == NAME_SIZE && name[3] >= 0x20 && q.contents && q.named
    ensures Leaves(LoadChunks(p.(rest := ChunkBytes(NameChunk(name))), q), Effect(p.memory, name), [])
    ensures Leaves(LoadChunks(p.(rest := ChunkBytes(Chunk(OBJECT_TAG, [1, 0, 0, 0])) + ChunkBytes(NameChunk(name))), q),
                   Effect(p.memory, p.name), [])
  {
    hide ChunkBytes, LoadChunk, Le32, FromLe32, Past, Apply;
    var misfit, chunk := Chunk(OBJECT_TAG, [1, 0, 0, 0]), NameChunk(name);
    var alone, both := p.(rest := ChunkBytes(chunk)), p.(rest := ChunkBytes(misfit) + ChunkBytes(chunk));
    assert alone.rest == ChunkBytes(chunk) + [];
    ChunkLoaded(alone, chunk, [], q);
    NameApplied(name, p.memory, p.name, q);
    MisfitOvershoots(both, misfit, ChunkBytes(chunk), q);
    NameBytes(name);
    var next := LoadChunk(both, q);
    NameReadAsChunk(next, name, q);
    assert LoadChunks(next, q) == LoadChunks(LoadChunk(next, q), q);
  }

  lemma NameBytes(name: seq<byte>)
    requires |name| == NAME_SIZE
    ensures Past(ChunkBytes(NameChunk(name)), 4) == Le32(NAME_SIZE) + name && ChunkBytes(NameChunk(name)) != []
  {
  }

  // ---- Files ----

  class File {
    var contents: seq<byte>
    var pos: nat

    ghost predicate Valid()
      reads this
    {
      pos <= |contents|
    }

    ghost function Rest(): seq<byte>
      requires Valid()
      reads this
    {
      contents[pos..]
    }

    constructor (contents: seq<byte>)
      ensures Valid() && this.contents == contents && pos == 0
    {
      this.contents, pos := contents, 0;
    }

    predicate Eof()
      reads this
    {
      pos >= |contents|
    }

    method Read(buffer: seq<byte>) returns (r: seq<byte>)
      requires Valid()
      modifies this`pos
      ensures Valid() && r == ReadInto(buffer, old(Rest())) && Rest() == Past(old(Rest()), |buffer|)
    {
      var k := if |buffer| < |contents| - pos then |buffer| else |contents| - pos;
      r := contents[pos..pos + k] + buffer[k..];
      pos := pos + k;
    }

    /** A position beyond the end becomes the end. */
    method Seek(position: nat)
      requires Valid() && position >= pos
      modifies this`pos
      ensures Valid() && Rest() == Past(old(Rest()), position - old(pos))
    {
      pos := if position > |contents| then |contents| else position;
    }

    method Write(data: seq<byte>)
      requires Valid() && pos == |contents|
      modifies this
      ensures Valid() && pos == |contents| && contents == old(contents) + data
    {
      contents := contents + data;
      pos := |contents|;
    }
  }

  method RIFFWriteObject(file: File, m: Memory, l: Location)
    requires file.Valid() && file.pos == |file.contents| && WellFormed(m) && Addressable(l.kind, l.part)
    modifies file
    ensures file.Valid() && file.pos == |file.contents|
    ensures file.contents == old(file.contents) + ChunkBytes(ObjectChunk(m, l))
  {
    var data := Read(m, l.kind, l.part);
    file.Write(OBJECT_TAG);
    file.Write(Le32(|data| + 4));
    file.Write([Number(l.kind) + 1, l.alias, 0, 0]);
    file.Write(data);
  }

  method WriteParts(file: File, m: Memory)
    requires file.Valid() && file.pos == |file.contents| && WellFormed(m)
    modifies file
    ensures file.Valid() && file.pos == |file.contents|
    ensures file.contents == old(file.contents) + Flatten(ObjectChunks(m, PartsFrom(0)))
  {
    hide ObjectChunk, ObjectChunks, PartsFrom, Flatten;
    for i := 0 to NUM_PARTS
      invariant file.Valid() && file.pos == |file.contents|
      invariant file.contents + Flatten(ObjectChunks(m, PartsFrom(i))) ==
                old(file.contents) + Flatten(ObjectChunks(m, PartsFrom(0)))
    {
      ghost var before := file.contents;
      RIFFWriteObject(file, m, Location(Patch, i, (i + 1) as byte));
      RIFFWriteObject(file, m, Location(Settings, i, (i + 1) as byte));
      FlatPart(m, i, before);
    }
    NoMoreParts(m);
    assert file.contents + [] == file.contents;
  }

  lemma FlatTwo(a: Chunk, b: Chunk, rest: seq<Chunk>)
    requires IsChunk(a) && IsChunk(b) && forall c :: c in rest ==> IsChunk(c)
    ensures Flatten([a, b] + rest) == ChunkBytes(a) + ChunkBytes(b) + Flatten(rest)
  {
    hide ChunkBytes, IsChunk;
    assert [a, b] == [a] + [b];
    FlatOne(a);
    FlatOne(b);
    FlattenInTwo([a], [b]);
    FlattenInTwo([a, b], rest);
  }

  lemma FlatPart(m: Memory, i: nat, before: seq<byte>)
    requires WellFormed(m) && i < NUM_PARTS
    ensures before + Flatten(ObjectChunks(m, PartsFrom(i))) ==
            before + ChunkBytes(ObjectChunk(m, Location(Patch, i, (i + 1) as byte)))
            + ChunkBytes(ObjectChunk(m, Location(Settings, i, (i + 1) as byte))) +
                Flatten(ObjectChunks(m, PartsFrom(i + 1)))
  {
    hide ObjectChunk, ObjectChunks, PartsFrom, ChunkBytes, Flatten;
    PartChunks(m, i);
    FlatTwo(ObjectChunk(m, Location(Patch, i, (i + 1) as byte)), ObjectChunk(m, Location(Settings, i, (i + 1) as byte)),
            ObjectChunks(m, PartsFrom(i + 1)));
  }

  lemma NoMoreParts(m: Memory)
    requires WellFormed(m)
    ensures Flatten(ObjectChunks(m, PartsFrom(NUM_PARTS))) == []
  {
  }

  lemma FlatObjects(m: Memory, kind: Kind, part: nat)
    requires WellFormed(m) && part < NUM_PARTS
    ensures Flatten(ObjectChunks(m, ObjectsOf(kind, part))) ==
            match kind
            case Program => ChunkBytes(ObjectChunk(m, Location(Patch, part, 0))) +
              ChunkBytes(ObjectChunk(m, Location(Settings, part, 0)))
            case Multi => ChunkBytes(ObjectChunk(m, Location(Multi, part, 0))) + Flatten(ObjectChunks(m, PartsFrom(0)))
            case _ => ChunkBytes(ObjectChunk(m, Location(kind, part, 0)))
  {
    hide ObjectChunk, PartsFrom, Flatten, ChunkBytes;
    var chunks := ObjectChunks(m, ObjectsOf(kind, part));
    FlatOne(chunks[0]);
    if kind.Program? {
      FlatOne(chunks[1]);
      assert chunks == [chunks[0]] + [chunks[1]];
      FlattenInTwo([chunks[0]], [chunks[1]]);
    } else if kind.Multi? {
      assert chunks == [chunks[0]] + ObjectChunks(m, PartsFrom(0));
      FlattenInTwo([chunks[0]], ObjectChunks(m, PartsFrom(0)));
    } else {
      assert chunks == [chunks[0]];
    }
  }

  method WriteObjects(file: File, m: Memory, kind: Kind, part: nat)
    requires file.Valid() && file.pos == |file.contents| && WellFormed(m) && part < NUM_PARTS
    modifies file
    ensures file.Valid() && file.pos == |file.contents|
    ensures file.contents == old(file.contents) + Flatten(ObjectChunks(m, ObjectsOf(kind, part)))
  {
    hide ObjectChunk, ObjectChunks, ObjectsOf, Flatten, ChunkBytes;
    FlatObjects(m, kind, part);
    if kind.Program? {
      RIFFWriteObject(file, m, Location(Patch, part, 0));
      RIFFWriteObject(file, m, Location(Settings, part, 0));
    } else if kind.Multi? {
      RIFFWriteObject(file, m, Location(Multi, part, 0));
      WriteParts(file, m);
    } else {
      RIFFWriteObject(file, m, Location(kind, part, 0));
    }
  }

  lemma FlatOne(c: Chunk)
    requires IsChunk(c)
    ensures Flatten([c]) == ChunkBytes(c)
  {
    assert [c][1..] == [];
  }

  method Save(m: Memory, kind: Kind, part: nat, name: seq<byte>) returns (file: File)
    requires WellFormed(m) && part < NUM_PARTS && |name| == NAME_SIZE
    ensures fresh(file) && file.contents == FileOf(m, kind, part, name)
  {
    hide ObjectChunks, ObjectsOf, Le32, RiffSize, Flatten;
    SizeIsSmall(kind);
    file := new File([]);
    file.Write(RIFF_TAG);
    file.Write(Le32(4 + 24 + RiffSize(kind)));
    file.Write(FORMAT_TAG);
    file.Write(NAME_TAG);
    file.Write(Le32(NAME_SIZE));
    file.Write(name);
    WriteObjects(file, m, kind, part);
    assert file.contents == RIFF_TAG + Le32(4 + 24 + RiffSize(kind)) + FORMAT_TAG
                            + (NAME_TAG + Le32(NAME_SIZE) + name + Flatten(ObjectChunks(m, ObjectsOf(kind, part))));
    FlatName(m, kind, part, name);
  }

  lemma FlatName(m: Memory, kind: Kind, part: nat, name: seq<byte>)
    requires WellFormed(m) && part < NUM_PARTS && |name| == NAME_SIZE
    ensures Flatten([NameChunk(name)] + ObjectChunks(m, ObjectsOf(kind, part))) ==
            NAME_TAG + Le32(NAME_SIZE) + name + Flatten(ObjectChunks(m, ObjectsOf(kind, part)))
  {
    hide ObjectsOf;
    FlatOne(NameChunk(name));
    FlattenInTwo([NameChunk(name)], ObjectChunks(m, ObjectsOf(kind, part)));
  }

  lemma PastNothing(rest: seq<byte>)
    ensures Past(rest, 0) == rest
  {
  }

  /** What loading works on: the memory of the instrument, and the name it was asked for. */
  class Loader {
    var memory: Memory
    var name: seq<byte>
    var id: seq<byte>
    var size: seq<byte>
    /** A write has gone through a null or foreign pointer. */
    var fault: bool

    constructor (memory: Memory, name: seq<byte>, id: seq<byte>, size: seq<byte>)
      ensures this.memory == memory && this.name == name && this.id == id && this.size == size && !fault
    {
      this.memory, this.name, this.id, this.size, fault := memory, name, id, size, false;
    }

    ghost predicate Valid()
      reads this
    {
      |id| == 4 && |size| == 4 && |name| == NAME_SIZE && WellFormed(memory)
    }

    ghost function Abs(file: File): (p: Progress)
      requires Valid() && file.Valid()
      reads this, file
      ensures IsProgress(p)
    {
      if fault then Fault else Progress(file.Rest(), id, size, memory, name)
    }

    method ReadObject(file: File, n: nat, q: Request)
      requires Valid() && file.Valid() && !fault
      modifies this`id, this`memory, this`fault, file`pos
      ensures Valid() && file.Valid() && Abs(file) == LoadObject(old(Abs(file)), n, q)
    {
      hide ReadInto, Past, Read, Write;
      var k := file.Read(id);
      id := k;
      var part := if id[1] == 0 then q.part else id[1] as nat - 1;
      var skip := true;
      if n >= 4 && ExpectedSize(id[0]) == n - 4 {
        skip := false;
        if 1 <= id[0] <= 5 {
          var kind := KindOf(id[0] - 1);
          if Addressable(kind, part) {
            var data := file.Read(Read(memory, kind, part));
            memory := Write(memory, kind, part, data);
          } else {
            fault := true;
          }
        }
      }
      if skip {
        file.Seek(file.pos + n);
      }
    }

    method ReadName(file: File, n: nat)
      requires Valid() && file.Valid() && !fault
      modifies this`name, file`pos
      ensures Valid() && file.Valid() && Abs(file) == LoadName(old(Abs(file)), n)
    {
      hide ReadInto, Past;
      var k := if n < NAME_SIZE then n else NAME_SIZE;
      var head := file.Read(name[..k]);
      name := head + name[k..];
      PastNothing(file.Rest());
      if n > k {
        file.Seek(file.pos + (n - k));
      }
    }

    method ReadChunk(file: File, q: Request)
      requires Valid() && file.Valid() && !fault && !file.Eof()
      modifies this, file`pos
      ensures Valid() && file.Valid() && Abs(file) == LoadChunk(old(Abs(file)), q)
    {
      hide ReadInto, Past, FromLe32, LoadObject, LoadName;
      var i := file.Read(id);
      id := i;
      var n := file.Read(size);
      size := n;
      if id == OBJECT_TAG && q.contents {
        ReadObject(file, FromLe32(size), q);
      } else if id == NAME_TAG && q.named {
        ReadName(file, FromLe32(size));
      } else {
        file.Seek(file.pos + FromLe32(size));
      }
    }

    method Load(file: File, kind: Kind, q: Request) returns (status: Status)
      requires Valid() && file.Valid() && file.pos == 0 && !fault
      modifies this, file`pos
      ensures var (s, m, n) := LoadFile(file.contents, old(id), old(size), old(memory), old(name), kind, q);
              status == s && (s != Broken ==> memory == m && name == n)
    {
      hide LoadChunk, ReadInto, Past;
      assert file.Rest() == file.contents;
      var i := file.Read(id);
      id := i;
      if id != RIFF_TAG {
        return BadFormat;
      }
      PastTwice(file.contents);
      var n := file.Read(size);
      size := n;
      i := file.Read(id);
      id := i;
      if id != FORMAT_TAG {
        return BadFormat;
      }
      ghost var start := Abs(file);
      while !fault && !file.Eof()
        invariant Valid() && file.Valid() && LoadChunks(Abs(file), q) == LoadChunks(start, q)
        decreases !fault, |file.contents| - file.pos
      {
        ReadChunk(file, q);
      }
      if fault {
        return Broken;
      }
      if q.contents && kind.Multi? {
        memory := Touch(memory);
      }
      status := Loaded;
    }
  }

  lemma PastTwice(bytes: seq<byte>)
    ensures Past(Past(bytes, 4), 4) == Past(bytes, 8) && Past(Past(bytes, 8), 4) == Past(bytes, 12)
  {
  }
}
