/**
 * The .oat_patches sections: ULEB128-encoded distances between patch locations
 * (compiler/elf_builder.h, runtime/leb128.h, runtime/elf_file.cc).
 */
module PatchLocations {
  import opened Align
  import opened OatTypes
  import opened Words
  import OatLayout

  /** The unsigned LEB128 form of a value: section 7.6 of DWARF Version 4. */
  function Uleb(v: nat): (b: seq<byte>)
    ensures |b| > 0
  {
    if v < 128 then [v] else [v % 128 + 128] + Uleb(v / 128)
  }

  /** The value of groups of seven bits, lowest first. */
  function Weighted(b: seq<byte>): nat {
    if b == [] then 0 else b[0] % 128 + 128 * Weighted(b[1..])
  }

  /** The bytes hold the value, seven bits in each, and all but the last announce another one. */
  lemma {:induction false} UlebGroups(v: nat)
    ensures var b := Uleb(v);
            && Weighted(b) == v && b[|b| - 1] < 128 && (|b| > 1 ==> b[|b| - 1] > 0)
            && forall i :: 0 <= i < |b| - 1 ==> b[i] >= 128
  {
    if v >= 128 {
      UlebGroups(v / 128);
      assert Uleb(v)[1..] == Uleb(v / 128);
    }
  }

  method EncodeUnsignedLeb128(dest: seq<byte>, value: nat) returns (dest': seq<byte>)
    ensures dest' == dest + Uleb(value)
  {
    dest' := dest;
    var low: nat, v: nat := value % 128, value / 128;
    while v != 0
      invariant low < 128
      invariant dest' + Uleb(v * 128 + low) == dest + Uleb(value)
      decreases v
    {
      assert (v * 128 + low) / 128 == v && (v * 128 + low) % 128 == low;
      assert Uleb(v * 128 + low) == [low + 128] + Uleb(v);
      assert dest' + ([low + 128] + Uleb(v)) == (dest' + [low + 128]) + Uleb(v);
      dest' := dest' + [low + 128];
      low, v := v % 128, v / 128;
    }
    dest' := dest' + [low];
  }

  /** A decoded value and the position behind it; Truncated when the bytes end too early. */
  datatype Decoded = Truncated | Value(value: nat, next: nat)

  /** At most k bytes with a continuation bit, then one that counts as it is. */
  function Groups(b: seq<byte>, at: nat, k: nat): (r: Decoded)
    ensures r.Value? ==> at < r.next <= |b|
    decreases |b| - at
  {
    if at >= |b| then Truncated
    else if k == 0 || b[at] < 128 then Value(b[at], at + 1)
    else
      match Groups(b, at + 1, k - 1)
      case Truncated => Truncated
      case Value(rest, next) => Value((b[at] as int) - 128 + 128 * rest, next)
  }

  /** DecodeUnsignedLeb128: the fifth byte is shifted by 28 whatever it holds, in 32 bits. */
  function DecodeUleb(b: seq<byte>, at: nat): (r: Decoded)
    ensures r.Value? ==> at < r.next <= |b|
  {
    match Groups(b, at, 4)
    case Truncated => Truncated
    case Value(v, next) => Value(Word(v), next)
  }

  function Capacity(k: nat): nat {
    if k == 0 then 128 else 128 * Capacity(k - 1)
  }

  lemma {:induction false} GroupsOfUleb(pre: seq<byte>, v: nat, post: seq<byte>, k: nat)
    requires v < Capacity(k)
    ensures Groups(pre + Uleb(v) + post, |pre|, k) == Value(v, |pre| + |Uleb(v)|)
    decreases k
  {
    var b := pre + Uleb(v) + post;
    assert b[|pre|] == Uleb(v)[0];
    if v >= 128 {
      var head := [v % 128 + 128];
      GroupsOfUleb(pre + head, v / 128, post, k - 1);
      assert b == (pre + head) + Uleb(v / 128) + post;
    }
  }

  lemma DecodeEncoded(pre: seq<byte>, v: nat, post: seq<byte>)
    requires v < TWO32
    ensures DecodeUleb(pre + Uleb(v) + post, |pre|) == Value(v, |pre| + |Uleb(v)|)
  {
    assert Capacity(4) == 34359738368;
    GroupsOfUleb(pre, v, post, 4);
  }

  /** Locations in order, each less than 4 GiB after the one before; the first counts from `from`. */
  predicate Encodable(locations: seq<int>, from: int)
    decreases locations
  {
    locations == [] ||
    (from <= locations[0] < from + TWO32 && Encodable(locations[1..], locations[0]))
  }

  function OatPatches(locations: seq<int>, from: int): seq<byte>
    requires Encodable(locations, from)
    decreases locations
  {
    if locations == [] then [] else Uleb(locations[0] - from) + OatPatches(locations[1..], locations[0])
  }

  /** EncodeOatPatches appends the encoding to the buffer. */
  method EncodeOatPatches(locations: seq<int>, buffer: seq<byte>) returns (buffer': seq<byte>)
    requires Encodable(locations, 0)
    ensures buffer' == buffer + OatPatches(locations, 0)
  {
    buffer' := buffer;
    var address := 0;
    var i := 0;
    while i < |locations|
      invariant 0 <= i <= |locations| && Encodable(locations[i..], address)
      invariant buffer' + OatPatches(locations[i..], address) == buffer + OatPatches(locations, 0)
    {
      ghost var rest := locations[i..];
      assert rest[0] == locations[i] && rest[1..] == locations[i + 1..];
      ghost var code := Uleb(locations[i] - address);
      assert buffer' + OatPatches(rest, address) == (buffer' + code) + OatPatches(rest[1..], locations[i]);
      buffer' := EncodeUnsignedLeb128(buffer', locations[i] - address);
      address := locations[i];
      i := i + 1;
    }
  }

  /** The n lowest bytes of a number, little end first. */
  function LowBytes(x: nat, n: nat): (b: seq<byte>)
    ensures |b| == n
    decreases n
  {
    if n == 0 then [] else [x % 256] + LowBytes(x / 256, n - 1)
  }

  function ReadBytes(b: seq<byte>, at: nat, n: nat): nat
    requires at + n <= |b|
    decreases n
  {
    if n == 0 then 0 else (b[at] as int) + 256 * ReadBytes(b, at + 1, n - 1)
  }

  /** The address of `size` bytes (an Elf_Addr: 4 or 8) at `at` plus delta, in that many bytes. */
  function AddAt(size: nat, data: seq<byte>, at: int, delta: nat): (r: seq<byte>)
    ensures |r| == |data|
  {
    if 0 <= at && at + size <= |data|
    then data[..at] + LowBytes(ReadBytes(data, at, size) + delta, size) + data[at + size..]
    else data
  }

  /** Adds delta at every location. */
  function Relocated(size: nat, data: seq<byte>, locations: seq<int>, delta: nat): seq<byte>
    decreases locations
  {
    if locations == [] then data else Relocated(size, AddAt(size, data, locations[0], delta), locations[1..], delta)
  }

  function Power256(n: nat): (p: nat)
    ensures p > 0
  {
    if n == 0 then 1 else 256 * Power256(n - 1)
  }

  lemma RemainderBy256(x: nat, m: nat)
    requires m > 0
    ensures x % (256 * m) == x % 256 + 256 * (x / 256 % m)
  {
    var q, r := x / 256, x % 256;
    var k, low := q / m, q % m;
    assert q == k * m + low && x == 256 * q + r;
    assert x == k * (256 * m) + (256 * low + r);
    assert 256 * low + r < 256 * m;
    RemainderOf(k, 256 * low + r, 256 * m);
  }

  /** Reading what was stored gives it back, up to the width of the address. */
  lemma {:induction false} ReadLowBytes(x: nat, n: nat, pre: seq<byte>, post: seq<byte>)
    ensures ReadBytes(pre + LowBytes(x, n) + post, |pre|, n) == x % Power256(n)
    decreases n
  {
    if n > 0 {
      var b := pre + LowBytes(x, n) + post;
      assert b == (pre + [x % 256]) + LowBytes(x / 256, n - 1) + post;
      ReadLowBytes(x / 256, n - 1, pre + [x % 256], post);
      RemainderBy256(x, Power256(n - 1));
    }
  }

  /**
   * The address at a patched location has moved by delta, up or (when the sum wraps) down; the bytes
   * around it are as they were.
   */
  lemma AddressMoved(size: nat, data: seq<byte>, at: nat, delta: nat)
    requires at + size <= |data|
    ensures var r := AddAt(size, data, at, delta);
            && ReadBytes(r, at, size) == (ReadBytes(data, at, size) + delta) % Power256(size)
            && r[..at] == data[..at] && r[at + size..] == data[at + size..]
  {
    ReadLowBytes(ReadBytes(data, at, size) + delta, size, data[..at], data[at + size..]);
  }

  lemma {:induction false} ReadSame(a: seq<byte>, b: seq<byte>, at: nat, n: nat)
    requires |a| == |b| && at + n <= |a| && forall d :: at <= d < at + n ==> a[d] == b[d]
    ensures ReadBytes(a, at, n) == ReadBytes(b, at, n)
    decreases n
  {
    if n > 0 {
      ReadSame(a, b, at + 1, n - 1);
    }
  }

  predicate InAddress(size: nat, at: int, d: int) {
    at <= d < at + size
  }

  lemma AddedElsewhere(size: nat, data: seq<byte>, at: int, delta: nat, d: nat)
    requires d < |data| && !InAddress(size, at, d)
    ensures AddAt(size, data, at, delta)[d] == data[d]
  {
  }

  lemma ReadElsewhere(size: nat, data: seq<byte>, at: int, delta: nat, other: nat)
    requires other + size <= |data| && OneApart(size, at, other)
    ensures ReadBytes(AddAt(size, data, at, delta), other, size) == ReadBytes(data, other, size)
  {
    var next := AddAt(size, data, at, delta);
    forall d | other <= d < other + size ensures next[d] == data[d] {
      AddedElsewhere(size, data, at, delta, d);
    }
    ReadSame(next, data, other, size);
  }

  /** Bytes that belong to no location stay as they are. */
  lemma {:induction false} RelocatedElsewhere(size: nat, data: seq<byte>, locations: seq<int>, delta: nat, d: nat)
    requires d < |data| && forall i :: 0 <= i < |locations| ==> !InAddress(size, locations[i], d)
    ensures |Relocated(size, data, locations, delta)| == |data|
    ensures Relocated(size, data, locations, delta)[d] == data[d]
    decreases locations
  {
    if locations != [] {
      var next := AddAt(size, data, locations[0], delta);
      AddedElsewhere(size, data, locations[0], delta, d);
      forall i | 0 <= i < |locations[1..]| ensures !InAddress(size, locations[1..][i], d) {
        assert locations[1..][i] == locations[i + 1];
      }
      RelocatedElsewhere(size, next, locations[1..], delta, d);
    }
  }

  /** The locations lie in the section and do not overlap. */
  ghost predicate LocationsApart(size: nat, length: nat, locations: seq<int>) {
    && (forall i :: 0 <= i < |locations| ==> 0 <= locations[i] && locations[i] + size <= length)
    && (forall i, j :: 0 <= i < j < |locations| ==> OneApart(size, locations[i], locations[j]))
  }

  predicate OneApart(size: nat, a: int, b: int) {
    a + size <= b || b + size <= a
  }

  lemma {:induction false} RelocatedLength(size: nat, data: seq<byte>, locations: seq<int>, delta: nat)
    ensures |Relocated(size, data, locations, delta)| == |data|
    decreases locations
  {
    if locations != [] {
      RelocatedLength(size, AddAt(size, data, locations[0], delta), locations[1..], delta);
    }
  }

  /** Patching the rest leaves what is at the first location. */
  lemma FirstKept(size: nat, data: seq<byte>, locations: seq<int>, delta: nat)
    requires locations != [] && LocationsApart(size, |data|, locations)
    ensures var r := Relocated(size, data, locations, delta);
            |r| == |data| && ReadBytes(r, locations[0], size) ==
                             ReadBytes(AddAt(size, data, locations[0], delta), locations[0], size)
  {
    var at, next, r := locations[0], AddAt(size, data, locations[0], delta), Relocated(size, data, locations, delta);
    RelocatedLength(size, data, locations, delta);
    forall d | at <= d < at + size ensures r[d] == next[d] {
      forall i | 0 <= i < |locations[1..]| ensures !InAddress(size, locations[1..][i], d) {
        assert locations[1..][i] == locations[i + 1] && OneApart(size, at, locations[i + 1]);
      }
      RelocatedElsewhere(size, next, locations[1..], delta, d);
    }
    ReadSame(r, next, at, size);
  }

  lemma RestApart(size: nat, length: nat, locations: seq<int>)
    requires locations != [] && LocationsApart(size, length, locations)
    ensures LocationsApart(size, length, locations[1..])
  {
    var rest := locations[1..];
    forall i, j | 0 <= i < j < |rest| ensures OneApart(size, rest[i], rest[j]) {
      assert rest[i] == locations[i + 1] && rest[j] == locations[j + 1];
    }
  }

  lemma FirstMoved(size: nat, data: seq<byte>, locations: seq<int>, delta: nat, from: nat, to: nat)
    requires locations != [] && LocationsApart(size, |data|, locations)
    requires from == ReadBytes(data, locations[0], size) && to == (from + delta) % Power256(size)
    ensures |Relocated(size, data, locations, delta)| == |data|
    ensures ReadBytes(Relocated(size, data, locations, delta), locations[0], size) == to
  {
    FirstKept(size, data, locations, delta);
    AddressMoved(size, data, locations[0], delta);
  }

  /** An address `from` at a location becomes `to`. */
  lemma {:induction false} EachMoved(size: nat, data: seq<byte>, locations: seq<int>, delta: nat, i: nat,
                                     from: nat, to: nat)
    requires i < |locations| && LocationsApart(size, |data|, locations)
    requires from == ReadBytes(data, locations[i], size) && to == (from + delta) % Power256(size)
    ensures |Relocated(size, data, locations, delta)| == |data|
    ensures ReadBytes(Relocated(size, data, locations, delta), locations[i], size) == to
    decreases locations
  {
    if i == 0 {
      FirstMoved(size, data, locations, delta, from, to);
    } else {
      var at, next, rest := locations[i], AddAt(size, data, locations[0], delta), locations[1..];
      RestApart(size, |data|, locations);
      assert rest[i - 1] == at && OneApart(size, locations[0], at);
      ReadElsewhere(size, data, locations[0], delta, at);
      EachMoved(size, next, rest, delta, i - 1, from, to);
    }
  }

  /** Relocating a section moves the address at every location by delta, up or down. */
  lemma AllMoved(size: nat, data: seq<byte>, locations: seq<int>, delta: nat, i: nat)
    requires i < |locations| && LocationsApart(size, |data|, locations)
    ensures var r := Relocated(size, data, locations, delta);
            |r| == |data| && ReadBytes(r, locations[i], size) ==
                             (ReadBytes(data, locations[i], size) + delta) % Power256(size)
  {
    var from := ReadBytes(data, locations[i], size);
    EachMoved(size, data, locations, delta, i, from, (from + delta) % Power256(size));
  }

  /** The locations that encoded distances stand for; decoding stops where the bytes end too early. */
  function Locations(patches: seq<byte>, at: nat, from: int): seq<int>
    requires at <= |patches|
    decreases |patches| - at
  {
    match DecodeUleb(patches, at)
    case Truncated => []
    case Value(v, next) => [from + v] + Locations(patches, next, from + v)
  }

  /** Step by step, the bytes from `at` on decode to the locations. */
  ghost predicate DecodesTo(b: seq<byte>, at: nat, locations: seq<int>, from: int)
    decreases locations
  {
    if locations == [] then at == |b|
    else
      var d := DecodeUleb(b, at);
      d.Value? && d.value == locations[0] - from && DecodesTo(b, d.next, locations[1..], locations[0])
  }

  lemma EncodedSplit(pre: seq<byte>, locations: seq<int>, from: int)
    requires locations != [] && Encodable(locations, from)
    ensures pre + OatPatches(locations, from)
            == pre + Uleb(locations[0] - from) + OatPatches(locations[1..], locations[0])
  {
  }

  /** The first step of decoding an encoded list. */
  lemma FirstDecoded(pre: seq<byte>, locations: seq<int>, from: int)
    requires locations != [] && Encodable(locations, from)
    ensures var code := Uleb(locations[0] - from);
            DecodeUleb(pre + OatPatches(locations, from), |pre|) == Value(locations[0] - from, |pre + code|)
  {
    EncodedSplit(pre, locations, from);
    DecodeEncoded(pre, locations[0] - from, OatPatches(locations[1..], locations[0]));
  }

  lemma {:induction false} EncodedDecodes(pre: seq<byte>, locations: seq<int>, from: int)
    requires Encodable(locations, from)
    ensures DecodesTo(pre + OatPatches(locations, from), |pre|, locations, from)
    decreases locations
  {
    if locations != [] {
      EncodedDecodes(pre + Uleb(locations[0] - from), locations[1..], locations[0]);
      FirstDecoded(pre, locations, from);
      EncodedSplit(pre, locations, from);
    }
  }

  lemma {:induction false} DecodesToLocations(b: seq<byte>, at: nat, locations: seq<int>, from: int)
    requires at <= |b| && DecodesTo(b, at, locations, from)
    ensures Locations(b, at, from) == locations
    decreases locations
  {
    if locations != [] {
      DecodesToLocations(b, DecodeUleb(b, at).next, locations[1..], locations[0]);
      assert locations == [locations[0]] + locations[1..];
    }
  }

  /** Decoding the encoded list of locations gives that list. */
  lemma DecodeOatPatches(locations: seq<int>)
    requires Encodable(locations, 0)
    ensures Locations(OatPatches(locations, 0), 0, 0) == locations
  {
    EncodedDecodes([], locations, 0);
    assert [] + OatPatches(locations, 0) == OatPatches(locations, 0);
    DecodesToLocations(OatPatches(locations, 0), 0, locations, 0);
  }

  lemma LocationsUnfold(patches: seq<byte>, at: nat, from: int)
    requires at <= |patches|
    ensures var d, all := DecodeUleb(patches, at), Locations(patches, at, from);
            if d.Truncated? then all == []
            else all != [] && all[0] == from + d.value && all[1..] == Locations(patches, d.next, from + d.value)
  {
  }

  /** ApplyOatPatches adds delta at every decoded location. */
  method ApplyOatPatches(size: nat, patches: seq<byte>, delta: nat, data: seq<byte>) returns (data': seq<byte>)
    ensures data' == Relocated(size, data, Locations(patches, 0, 0), delta)
  {
    data' := data;
    var next, to := 0, 0;
    while next < |patches|
      invariant 0 <= next <= |patches|
      invariant Relocated(size, data', Locations(patches, next, to), delta) ==
                Relocated(size, data, Locations(patches, 0, 0), delta)
      decreases |patches| - next
    {
      LocationsUnfold(patches, next, to);
      var decoded := DecodeUleb(patches, next);
      if decoded.Truncated? {
        return;
      }
      to := to + decoded.value;
      data' := AddAt(size, data', to, delta);
      next := decoded.next;
    }
  }

  /** Patching through the encoded list is patching at the original locations. */
  lemma PatchingThroughTheList(size: nat, locations: seq<int>, delta: nat, data: seq<byte>)
    requires Encodable(locations, 0)
    ensures Relocated(size, data, Locations(OatPatches(locations, 0), 0, 0), delta) ==
            Relocated(size, data, locations, delta)
  {
    DecodeOatPatches(locations);
  }

  /** Ascending locations less than 4 GiB apart can be encoded. */
  lemma {:induction false} AscendingEncodable(s: seq<int>, lo: int, hi: int, from: int)
    requires OatLayout.Ascending(s, lo, hi) && from <= lo && hi < from + TWO32
    ensures Encodable(s, from)
    decreases s
  {
    if s != [] {
      assert OatLayout.Ascending(s[1..], s[0], hi) by {
        forall i | 0 <= i < |s[1..]| ensures s[0] <= s[1..][i] <= hi {
          assert s[1..][i] == s[i + 1];
        }
      }
      AscendingEncodable(s[1..], s[0], hi, s[0]);
    }
  }

  /** The patch locations of a whole layout survive encoding and decoding. */
  lemma LayoutLocationsDecode(cfg: OatLayout.Config, prog: Program, vs: seq<Visit>, need: seq<bool>,
                              run: seq<OatLayout.Layout>)
    requires Linked(prog, vs) && OatLayout.LayoutRun(cfg, vs, need, run) && cfg.executable <= cfg.start
    requires forall i :: 0 <= i < |vs| ==> OatLayout.PatchesFit(vs[i].body)
    requires OatLayout.FinalLayout(cfg, vs, need, run).offset < TWO32
    ensures var locations := OatLayout.FinalLayout(cfg, vs, need, run).locations;
            Encodable(locations, 0) && Locations(OatPatches(locations, 0), 0, 0) == locations
  {
    OatLayout.LocationsAscend(cfg, prog, vs, need, run, |vs|);
    AscendingEncodable(run[|vs|].locations, 0, run[|vs|].offset - cfg.executable, 0);
    DecodeOatPatches(run[|vs|].locations);
  }
}
