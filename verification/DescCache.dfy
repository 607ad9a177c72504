/**
 The on-disk cache of device descriptors: `DescCache::save` and `DescCache::load`.

 The disk is a map from path to bytes, with one output stream whose buffer is emptied whenever the
 environment likes, at the latest by fclose(). Whether a single file operation succeeds, and how
 much of a write arrives, is up to the environment too. The disk remembers every state it went
 through, so that "stopped at any moment" is a statement about that list.
 */
module DescCache {
  import opened Crc32

  const MAGIC: nat := 0x4A524443
  const FORMAT_VERSION: nat := 1
  const HEADER_LEN: nat := 24

  // ---------------------------------------------------------------- the header layout

  lemma NextByte(b: Byte)
    requires b as nat < 255
    ensures (b + 1) as nat == b as nat + 1
  {}

  /** The byte with the value n. */
  function ToByte(n: nat): (b: Byte)
    requires n < 256
    ensures b as nat == n
  {
    if n == 0 then 0 else NextByte(ToByte(n - 1)); ToByte(n - 1) + 1
  }

  /** A little-endian field of `width` bytes. */
  function ToBytes(n: nat, width: nat): (r: seq<Byte>)
    ensures |r| == width
  {
    if width == 0 then [] else [ToByte(n % 256)] + ToBytes(n / 256, width - 1)
  }

  function FromBytes(bs: seq<Byte>): nat {
    if bs == [] then 0 else (bs[0] as nat) + 256 * FromBytes(bs[1..])
  }

  function Capacity(width: nat): (r: nat)
    ensures r >= 1
  {
    if width == 0 then 1 else 256 * Capacity(width - 1)
  }

  lemma {:induction false} FieldRoundTrip(n: nat, width: nat)
    requires n < Capacity(width)
    ensures FromBytes(ToBytes(n, width)) == n
  {
    if width > 0 {
      FieldRoundTrip(n / 256, width - 1);
      assert ToBytes(n, width)[1..] == ToBytes(n / 256, width - 1);
    }
  }

  datatype Header = Header(magic: nat, version: nat, crc: nat, fw: nat, abi: nat, jsonLen: nat, payloadCrc: nat)

  /** The fields fit their widths in the packed struct. */
  predicate Storable(h: Header) {
    && h.magic < Capacity(4) && h.version < Capacity(2) && h.crc < Capacity(2) && h.fw < Capacity(4)
    && h.abi < Capacity(4) && h.jsonLen < Capacity(4) && h.payloadCrc < Capacity(4)
  }

  function Encode(h: Header): (r: seq<Byte>)
    ensures |r| == HEADER_LEN
  {
    ToBytes(h.magic, 4) + ToBytes(h.version, 2) + ToBytes(h.crc, 2) + ToBytes(h.fw, 4)
    + ToBytes(h.abi, 4) + ToBytes(h.jsonLen, 4) + ToBytes(h.payloadCrc, 4)
  }

  function Decode(bs: seq<Byte>): Header
    requires |bs| >= HEADER_LEN
  {
    Header(FromBytes(bs[0..4]), FromBytes(bs[4..6]), FromBytes(bs[6..8]), FromBytes(bs[8..12]),
           FromBytes(bs[12..16]), FromBytes(bs[16..20]), FromBytes(bs[20..24]))
  }

  lemma HeaderRoundTrip(h: Header, rest: seq<Byte>)
    requires Storable(h)
    ensures Decode(Encode(h) + rest) == h
  {
    var bs := Encode(h) + rest;
    assert bs[0..4] == ToBytes(h.magic, 4);
    assert bs[4..6] == ToBytes(h.version, 2);
    assert bs[6..8] == ToBytes(h.crc, 2);
    assert bs[8..12] == ToBytes(h.fw, 4);
    assert bs[12..16] == ToBytes(h.abi, 4);
    assert bs[16..20] == ToBytes(h.jsonLen, 4);
    assert bs[20..24] == ToBytes(h.payloadCrc, 4);
    FieldRoundTrip(h.magic, 4);
    FieldRoundTrip(h.version, 2);
    FieldRoundTrip(h.crc, 2);
    FieldRoundTrip(h.fw, 4);
    FieldRoundTrip(h.abi, 4);
    FieldRoundTrip(h.jsonLen, 4);
    FieldRoundTrip(h.payloadCrc, 4);
  }

  /** The header that save() writes; the length is cut to 32 bits. */
  function HeaderFor(fw: nat, crc: nat, abi: nat, json: seq<Byte>): Header {
    Header(MAGIC, FORMAT_VERSION, crc, fw, abi, |json| % Capacity(4), Reference(json) as nat)
  }

  /** A complete cache file. */
  function Image(fw: nat, crc: nat, abi: nat, json: seq<Byte>): seq<Byte> {
    Encode(HeaderFor(fw, crc, abi, json)) + json
  }

  // ---------------------------------------------------------------- the disk

  type Disk = map<string, seq<Byte>>

  /** The disk after the first m of `bytes` were appended to the file p. */
  function Grown(d: Disk, p: string, bytes: seq<Byte>, m: int): Disk
    requires p in d && 0 <= m <= |bytes|
  {
    d[p := d[p] + bytes[..m]]
  }

  /** The disks differ at most in the file p. */
  predicate SameBut(d: Disk, e: Disk, p: string) {
    d - {p} == e - {p}
  }

  class FileSystem {
    var files: Disk
    /** What was written to the open stream and is not on disk yet. */
    var buffer: seq<Byte>
    /** Every state so far, the current one last. */
    ghost var trace: seq<Disk>

    ghost predicate Valid()
      reads this
    {
      trace != [] && trace[|trace| - 1] == files
    }

    constructor (initial: Disk)
      ensures Valid() && files == initial && trace == [initial]
    {
      files, buffer, trace := initial, [], [initial];
    }

    /** fopen(p, "wb"): creates or truncates. */
    method Create(p: string) returns (ok: bool)
      requires Valid()
      modifies this
      ensures Valid() && buffer == []
      ensures files == if ok then old(files)[p := []] else old(files)
      ensures trace == old(trace) + [files]
    {
      ok := *;
      buffer := [];
      if ok { files := files[p := []]; }
      trace := trace + [files];
    }

    /** Some prefix of the buffer reaches the disk, byte by byte. */
    method Drain(p: string) returns (m: nat)
      requires Valid() && p in files
      modifies this
      ensures Valid() && m <= |old(buffer)| && buffer == old(buffer)[m..]
      ensures files == Grown(old(files), p, old(buffer), m)
      ensures old(trace) <= trace
      ensures forall k :: |old(trace)| <= k < |trace| ==> SameBut(trace[k], old(files), p)
    {
      var limit: nat := *;
      m := 0;
      assert files[p] + buffer[..0] == files[p];
      while m < |buffer| && m < limit
        modifies this`files, this`trace
        invariant Valid() && m <= |buffer| && buffer == old(buffer)
        invariant files == Grown(old(files), p, buffer, m)
        invariant old(trace) <= trace
        invariant forall k :: |old(trace)| <= k < |trace| ==> SameBut(trace[k], old(files), p)
      {
        assert old(files[p]) + buffer[..m + 1] == (old(files[p]) + buffer[..m]) + [buffer[m]];
        files := files[p := files[p] + [buffer[m]]];
        trace := trace + [files];
        m := m + 1;
      }
      buffer := buffer[m..];
    }

    /** fwrite(): the stream takes n of the bytes; the buffer may be emptied meanwhile. */
    method Write(p: string, bytes: seq<Byte>) returns (n: nat)
      requires Valid() && p in files
      modifies this
      ensures Valid() && n <= |bytes| && p in files
      ensures files[p] + buffer == old(files[p] + buffer) + bytes[..n]
      ensures SameBut(files, old(files), p) && old(trace) <= trace
      ensures forall k :: |old(trace)| <= k < |trace| ==> SameBut(trace[k], old(files), p)
    {
      n :| n <= |bytes|;
      buffer := buffer + bytes[..n];
      ghost var all := buffer;
      var m := Drain(p);
      assert all[..m] + all[m..] == all;
    }

    /** fclose(): succeeds when the rest of the buffer reaches the disk; what does not is lost. */
    method Close(p: string) returns (ok: bool)
      requires Valid() && p in files
      modifies this
      ensures Valid() && p in files && buffer == []
      ensures files[p] <= old(files[p] + buffer)
      ensures ok <==> files[p] == old(files[p] + buffer)
      ensures SameBut(files, old(files), p) && old(trace) <= trace
      ensures forall k :: |old(trace)| <= k < |trace| ==> SameBut(trace[k], old(files), p)
    {
      ghost var all := buffer;
      var m := Drain(p);
      assert all[..m] + all[m..] == all;
      ok := buffer == [];
      buffer := [];
    }

    method Remove(p: string) returns (ok: bool)
      requires Valid()
      modifies this
      ensures Valid()
      ensures files == if ok then old(files) - {p} else old(files)
      ensures trace == old(trace) + [files]
    {
      ok := *;
      if ok { files := files - {p}; }
      trace := trace + [files];
    }

    /** Atomic: either nothing happens or the file has the new name only. */
    method Rename(from: string, to: string) returns (ok: bool)
      requires Valid() && from in files && from != to
      modifies this
      ensures Valid()
      ensures files == if ok then (old(files) - {from})[to := old(files)[from]] else old(files)
      ensures trace == old(trace) + [files]
    {
      ok := *;
      if ok { files := (files - {from})[to := files[from]]; }
      trace := trace + [files];
    }
  }

  // ---------------------------------------------------------------- save

  datatype Outcome = Hit | Miss | Error

  function TmpOf(path: string): (tmp: string)
    ensures |tmp| == |path| + 4 && tmp[..|path|] == path && tmp[|path|..] == ".tmp"
  {
    assert |path + ".tmp"| != |path|;
    path + ".tmp"
  }

  /** The target is the old file or absent. */
  predicate OldOrAbsent(now: Disk, before: Disk, path: string) {
    path in now ==> path in before && now[path] == before[path]
  }

  /** What an interrupted save may leave behind, given what was there before. */
  predicate CrashSafe(now: Disk, before: Disk, path: string, image: seq<Byte>) {
    var tmp := TmpOf(path);
    // the target is the old file, absent, or the complete new file
    && (OldOrAbsent(now, before, path) || now[path] == image)
    // the old file only goes away once the complete new one is on disk
    && (path in before && (path !in now || now[path] != before[path]) ==>
          (tmp in now && now[tmp] == image) || (path in now && now[path] == image))
    // nothing else is touched
    && now - {path, tmp} == before - {path, tmp}
  }

  /** Only the temporary file differs. */
  predicate OnlyTmp(now: Disk, before: Disk, path: string) {
    SameBut(now, before, TmpOf(path))
  }

  lemma NothingIsOnlyTmp(now: Disk, path: string)
    ensures OnlyTmp(now, now, path)
  {}

  lemma OnlyTmpIsSafe(now: Disk, before: Disk, path: string, image: seq<Byte>)
    requires OnlyTmp(now, before, path)
    ensures CrashSafe(now, before, path, image) && OldOrAbsent(now, before, path)
  {
    var tmp := TmpOf(path);
    assert now - {path, tmp} == (now - {tmp}) - {path};
    assert before - {path, tmp} == (before - {tmp}) - {path};
    assert path in now <==> path in now - {tmp};
    assert path in before <==> path in before - {tmp};
    assert path in now ==> now[path] == (now - {tmp})[path];
    assert path in before ==> before[path] == (before - {tmp})[path];
  }

  /** The first half of save(): header and payload into the temporary file. The result says that
      the stream took everything; `closed` says that fclose() brought it to the disk, which the code
      does not look at. */
  method WriteTmp(fs: FileSystem, path: string, fw: nat, crc: nat, abi: nat, json: seq<Byte>)
    returns (ok: bool, ghost stored: seq<Byte>, ghost closed: bool)
    requires fs.Valid()
    modifies fs
    ensures fs.Valid() && old(fs.trace) <= fs.trace
    ensures forall k :: |old(fs.trace)| <= k < |fs.trace| ==> OnlyTmp(fs.trace[k], old(fs.files), path)
    ensures OnlyTmp(fs.files, old(fs.files), path)
    ensures ok ==> fs.files == old(fs.files)[TmpOf(path) := stored]
    ensures ok ==> stored <= Image(fw, crc, abi, json) && (closed <==> stored == Image(fw, crc, abi, json))
  {
    hide Image, Encode, TmpOf, Reference;
    ghost var before := fs.files;
    var tmp := TmpOf(path);
    stored, closed := [], false;
    ok := fs.Create(tmp);
    if !ok {
      return;
    }
    var sum := Checksum(json);
    var header := Encode(Header(MAGIC, FORMAT_VERSION, crc, fw, abi, |json| % Capacity(4), sum as nat));
    var n := fs.Write(tmp, header);
    ok := n == |header|;
    if ok {
      n := fs.Write(tmp, json);
      ok := n == |json|;
    }
    assert ok ==> fs.files[tmp] + fs.buffer == Image(fw, crc, abi, json) by {
      ImageIs(fw, crc, abi, json);
      assert [] + [] + header == header && header[..|header|] == header && json[..|json|] == json;
    }
    closed := fs.Close(tmp);
    stored := fs.files[tmp];
    if !ok {
      var gone := fs.Remove(tmp);
    } else {
      OnlyOneChanged(fs.files, before, tmp);
    }
  }

  lemma OnlyOneChanged(d: Disk, e: Disk, p: string)
    requires SameBut(d, e, p) && p in d
    ensures d == e[p := d[p]]
  {
    assert forall q :: q != p ==> (q in d <==> q in d - {p}) && (q in e <==> q in e - {p});
    forall q | q in d && q != p
      ensures d[q] == e[q]
    {
      assert (d - {p})[q] == (e - {p})[q];
    }
  }

  lemma ImageIs(fw: nat, crc: nat, abi: nat, json: seq<Byte>)
    ensures Image(fw, crc, abi, json)
         == Encode(Header(MAGIC, FORMAT_VERSION, crc, fw, abi, |json| % Capacity(4), Reference(json) as nat)) + json
  {}

  /** save(): temporary file, remove, rename. Its result and the state after every single file
      operation, whatever the environment does. `written` says that the stream took everything;
      `stored` is then what reached the disk, the complete image exactly when fclose() succeeded, and
      nothing else is ever put in place. A save that fails leaves the old file or none. */
  method Save(fs: FileSystem, path: string, dirOk: bool, fw: nat, crc: nat, abi: nat, json: seq<Byte>)
    returns (outcome: Outcome, ghost written: bool, ghost stored: seq<Byte>, ghost closed: bool)
    requires fs.Valid()
    modifies fs
    ensures fs.Valid() && old(fs.trace) <= fs.trace
    ensures written ==>
              stored <= Image(fw, crc, abi, json) && (closed <==> stored == Image(fw, crc, abi, json))
    ensures forall k :: |old(fs.trace)| <= k < |fs.trace| ==> CrashSafe(fs.trace[k], old(fs.files), path, stored)
    ensures !written ==>
              forall k :: |old(fs.trace)| <= k < |fs.trace| ==> OnlyTmp(fs.trace[k], old(fs.files), path)
    ensures outcome == Error ==>
              forall k :: |old(fs.trace)| <= k < |fs.trace| ==> OldOrAbsent(fs.trace[k], old(fs.files), path)
    ensures !written ==> outcome == Error && OnlyTmp(fs.files, old(fs.files), path)
    ensures outcome == Error && written ==>
              var full := old(fs.files)[TmpOf(path) := stored];
              fs.files == full || fs.files == full - {path}
    ensures outcome == Hit ==> written && fs.files == (old(fs.files) - {TmpOf(path)})[path := stored]
    ensures outcome != Miss
    ensures json == [] || !dirOk ==> outcome == Error && fs.files == old(fs.files)
  {
    hide Image, TmpOf, CrashSafe, OnlyTmp, OldOrAbsent;
    written, stored, closed := false, [], false;
    if json == [] || !dirOk {
      NothingIsOnlyTmp(fs.files, path);
      return Error, false, [], false;
    }
    ghost var before := fs.files;
    var ok;
    ok, stored, closed := WriteTmp(fs, path, fw, crc, abi, json);
    written := ok;
    forall k | |old(fs.trace)| <= k < |fs.trace|
      ensures CrashSafe(fs.trace[k], before, path, stored) && OldOrAbsent(fs.trace[k], before, path)
    {
      OnlyTmpIsSafe(fs.trace[k], before, path, stored);
    }
    if !ok {
      return Error, written, stored, closed;
    }
    var tmp := TmpOf(path);
    var removed := fs.Remove(path);
    FullTmpIsSafe(fs.files, before, path, stored, removed);
    var renamed := fs.Rename(tmp, path);
    if !renamed {
      return Error, written, stored, closed;
    }
    RenamedIsSafe(fs.files, before, path, stored, removed);
    return Hit, written, stored, closed;
  }

  lemma FullTmpIsSafe(now: Disk, before: Disk, path: string, image: seq<Byte>, removed: bool)
    requires var full := before[TmpOf(path) := image];
             now == if removed then full - {path} else full
    ensures CrashSafe(now, before, path, image) && OldOrAbsent(now, before, path)
  {
    hide TmpOf;
    assert now - {path, TmpOf(path)} == before - {path, TmpOf(path)};
  }

  lemma RenamedIsSafe(now: Disk, before: Disk, path: string, image: seq<Byte>, removed: bool)
    requires var full := before[TmpOf(path) := image];
             var left := if removed then full - {path} else full;
             now == (left - {TmpOf(path)})[path := image]
    ensures CrashSafe(now, before, path, image)
    ensures now == (before - {TmpOf(path)})[path := image]
  {
    hide TmpOf;
    assert now - {path, TmpOf(path)} == before - {path, TmpOf(path)};
  }

  // ---------------------------------------------------------------- load

  datatype Loaded = NotCached | Unusable | Cached(json: seq<Byte>, fw: nat, crc: nat, jsonLen: nat)

  /** What load() answers for a disk, a path and an expected firmware (0: any). */
  function Lookup(files: Disk, path: string, expectFw: nat): Loaded {
    if path !in files then NotCached else
    var bytes := files[path];
    if |bytes| < HEADER_LEN then Unusable else
    var h := Decode(bytes);
    if h.magic != MAGIC || h.version != FORMAT_VERSION then Unusable else
    if expectFw != 0 && h.fw != expectFw then NotCached else
    if |bytes| - HEADER_LEN < h.jsonLen then Unusable else
    var json := bytes[HEADER_LEN..HEADER_LEN + h.jsonLen];
    if Reference(json) as nat != h.payloadCrc then Unusable else
    Cached(json, h.fw, h.crc, h.jsonLen)
  }

  method Load(fs: FileSystem, path: string, expectFw: nat) returns (r: Loaded)
    ensures r == Lookup(fs.files, path, expectFw)
  {
    if path !in fs.files {
      return NotCached;
    }
    var bytes := fs.files[path];
    if |bytes| < HEADER_LEN {
      return Unusable;
    }
    var h := Decode(bytes);
    if h.magic != MAGIC || h.version != FORMAT_VERSION {
      return Unusable;
    }
    if expectFw != 0 && h.fw != expectFw {
      return NotCached;
    }
    if |bytes| - HEADER_LEN < h.jsonLen {
      return Unusable;
    }
    var json := bytes[HEADER_LEN..HEADER_LEN + h.jsonLen];
    var sum := Checksum(json);
    if sum as nat != h.payloadCrc {
      return Unusable;
    }
    return Cached(json, h.fw, h.crc, h.jsonLen);
  }

  // ---------------------------------------------------------------- what load gives back

  lemma Capacities()
    ensures Capacity(2) == 0x1_0000 && Capacity(4) == 0x1_0000_0000
  {
    assert Capacity(1) == 256;
    assert Capacity(2) == 256 * 256;
    assert Capacity(3) == 256 * 256 * 256;
  }

  lemma WordIsBelow(w: Word)
    ensures w as nat < 0x1_0000_0000
  {}

  lemma WordFromNat(a: Word, b: Word)
    requires a as nat == b as nat
    ensures a == b
  {
    assert (a as nat) as Word == a && (b as nat) as Word == b;
  }

  lemma HeaderForStorable(fw: nat, crc: nat, abi: nat, json: seq<Byte>)
    requires fw < 0x1_0000_0000 && crc < 0x1_0000 && abi < 0x1_0000_0000
    ensures Storable(HeaderFor(fw, crc, abi, json))
  {
    hide Reference;
    Capacities();
    WordIsBelow(Reference(json));
  }

  /** load() on a saved header followed by any payload bytes. */
  lemma LookupSavedHeader(files: Disk, path: string, fw: nat, crc: nat, abi: nat,
        json: seq<Byte>, body: seq<Byte>, expectFw: nat)
    requires fw < 0x1_0000_0000 && crc < 0x1_0000 && abi < 0x1_0000_0000
    requires path in files && files[path] == Encode(HeaderFor(fw, crc, abi, json)) + body
    ensures var n := |json| % 0x1_0000_0000;
            Lookup(files, path, expectFw) ==
              if expectFw != 0 && fw != expectFw then NotCached
              else if |body| < n || Reference(body[..n]) != Reference(json) then Unusable
              else Cached(body[..n], fw, crc, n)
  {
    hide Reference, Encode, Decode;
    var h := HeaderFor(fw, crc, abi, json);
    HeaderForStorable(fw, crc, abi, json);
    HeaderRoundTrip(h, body);
    Capacities();
    var bytes := files[path];
    var n := |json| % 0x1_0000_0000;
    assert h.jsonLen == n;
    if |body| >= n {
      assert bytes[HEADER_LEN..HEADER_LEN + n] == body[..n];
      if Reference(body[..n]) as nat == Reference(json) as nat {
        WordFromNat(Reference(body[..n]), Reference(json));
      }
    }
  }

  /** No file is a miss, and one too short for a header is an error. */
  lemma NoHeaderIsNeverLoaded(files: Disk, path: string, expectFw: nat)
    ensures path !in files ==> Lookup(files, path, expectFw) == NotCached
    ensures path in files && |files[path]| < 24 ==> Lookup(files, path, expectFw) == Unusable
  {}

  /** A file of another kind or of another format version is an error, whatever else it holds. */
  lemma ForeignFileIsNeverLoaded(files: Disk, path: string, h: Header, body: seq<Byte>, expectFw: nat)
    requires Storable(h) && (h.magic != 0x4A524443 || h.version != 1)
    requires path in files && files[path] == Encode(h) + body
    ensures Lookup(files, path, expectFw) == Unusable
  {
    hide Encode, Decode, Reference;
    HeaderRoundTrip(h, body);
  }

  /** A completed save() followed by load() gives back exactly the payload and the metadata, or
      a miss when another firmware is asked for, provided the payload is shorter than 2^32 bytes;
      for a longer one it never does. */
  lemma SaveThenLoad(files: Disk, path: string, fw: nat, crc: nat, abi: nat, json: seq<Byte>, expectFw: nat)
    requires fw < 0x1_0000_0000 && crc < 0x1_0000 && abi < 0x1_0000_0000
    requires path in files && files[path] == Image(fw, crc, abi, json)
    ensures expectFw != 0 && expectFw != fw ==> Lookup(files, path, expectFw) == NotCached
    ensures expectFw == 0 || expectFw == fw ==>
              (Lookup(files, path, expectFw) == Cached(json, fw, crc, |json|) <==> |json| < 0x1_0000_0000)
  {
    hide Reference, Encode, Lookup, HeaderFor;
    LookupSavedHeader(files, path, fw, crc, abi, json, json, expectFw);
    if |json| < 0x1_0000_0000 {
      assert json[..|json| % 0x1_0000_0000] == json;
    }
  }

  /** No proper prefix of a saved file is ever taken for a cache entry. */
  lemma TruncatedIsNeverLoaded(files: Disk, path: string, fw: nat, crc: nat, abi: nat,
        json: seq<Byte>, expectFw: nat, cut: nat)
    requires fw < 0x1_0000_0000 && crc < 0x1_0000 && abi < 0x1_0000_0000
    requires 0 < |json| < 0x1_0000_0000 && cut < |Image(fw, crc, abi, json)|
    requires path in files && files[path] == Image(fw, crc, abi, json)[..cut]
    ensures Lookup(files, path, expectFw) ==
              if cut >= HEADER_LEN && expectFw != 0 && fw != expectFw then NotCached else Unusable
  {
    hide Reference, Encode, HeaderFor, Decode;
    if cut >= HEADER_LEN {
      hide Lookup;
      var body := json[..cut - HEADER_LEN];
      assert Image(fw, crc, abi, json)[..cut] == Encode(HeaderFor(fw, crc, abi, json)) + body;
      LookupSavedHeader(files, path, fw, crc, abi, json, body, expectFw);
    }
  }

  /** What save() put in place loads back as it was exactly when fclose() succeeded; what a failed
      fclose() left behind is an error for load(), never a hit. */
  lemma HitLoadsIffClosed(files: Disk, path: string, fw: nat, crc: nat, abi: nat, json: seq<Byte>, stored: seq<Byte>)
    requires fw < 0x1_0000_0000 && crc < 0x1_0000 && abi < 0x1_0000_0000 && 0 < |json| < 0x1_0000_0000
    requires stored <= Image(fw, crc, abi, json) && path in files && files[path] == stored
    ensures Lookup(files, path, fw)
         == if stored == Image(fw, crc, abi, json) then Cached(json, fw, crc, |json|) else Unusable
  {
    hide Image, Lookup;
    if stored == Image(fw, crc, abi, json) {
      SaveThenLoad(files, path, fw, crc, abi, json, fw);
    } else {
      assert stored == Image(fw, crc, abi, json)[..|stored|];
      TruncatedIsNeverLoaded(files, path, fw, crc, abi, json, fw, |stored|);
    }
  }

  /** A saved file whose payload was altered only within 32 consecutive bits is never a hit. */
  lemma AlteredPayloadIsNeverLoaded(files: Disk, path: string, fw: nat, crc: nat, abi: nat,
        json: seq<Byte>, body: seq<Byte>, expectFw: nat, lo: nat, n: nat)
    requires fw < 0x1_0000_0000 && crc < 0x1_0000 && abi < 0x1_0000_0000 && |json| < 0x1_0000_0000
    requires path in files && files[path] == Encode(HeaderFor(fw, crc, abi, json)) + body
    requires body != json && n <= 32 && DifferOnlyIn(Message(json), Message(body), lo, n)
    ensures Lookup(files, path, expectFw) == if expectFw != 0 && fw != expectFw then NotCached else Unusable
  {
    hide Reference, Encode, HeaderFor, Lookup, Message;
    LookupSavedHeader(files, path, fw, crc, abi, json, body, expectFw);
    BurstDetected(json, body, lo, n);
    MessageLengths(json, body);
    assert body[..|json|] == body;
  }

  /** The same in bytes: four consecutive payload bytes overwritten with anything else. */
  lemma FourAlteredBytesAreNeverLoaded(files: Disk, path: string, fw: nat, crc: nat, abi: nat,
        json: seq<Byte>, body: seq<Byte>, expectFw: nat, lo: nat, n: nat)
    requires fw < 0x1_0000_0000 && crc < 0x1_0000 && abi < 0x1_0000_0000 && |json| < 0x1_0000_0000
    requires path in files && files[path] == Encode(HeaderFor(fw, crc, abi, json)) + body
    requires body != json && n <= 4 && DifferOnlyIn(json, body, lo, n)
    ensures Lookup(files, path, expectFw) == if expectFw != 0 && fw != expectFw then NotCached else Unusable
  {
    hide Reference, Encode, HeaderFor, Lookup;
    LookupSavedHeader(files, path, fw, crc, abi, json, body, expectFw);
    FourByteWindowDetected(json, body, lo, n);
    assert body[..|json|] == body;
  }
}
