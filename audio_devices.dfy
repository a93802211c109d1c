/**
 * The two pieces of sequential logic in synth/main.cpp: `list_audio_devices`,
 * which walks the device list that `alcGetString(NULL, ALC_DEVICE_SPECIFIER)`
 * returns (NUL-terminated names back to back, ended by an extra NUL), and
 * `to_al_format`, which picks an OpenAL buffer format for a channel count and
 * a sample width. Printing a name is modelled by appending it to the result.
 */
module AudioDevices {

  /** A `const ALCchar*`: null, or the bytes of memory from the pointer on. */
  datatype DeviceString = Null | Memory(bytes: seq<char>)

  /** A device name: non-empty and free of NUL. */
  predicate IsName(name: seq<char>)
  {
    |name| > 0 && '\0' !in name
  }

  /** The names laid out back to back, each followed by its NUL. */
  function Encode(names: seq<seq<char>>): seq<char>
  {
    if names == [] then [] else names[0] + ['\0'] + Encode(names[1..])
  }

  /** The position at which name k starts. */
  function Offset(names: seq<seq<char>>, k: nat): nat
    requires k <= |names|
  {
    |Encode(names[..k])|
  }

  /** `mem` starts with the names and the NUL that ends the list. */
  predicate IsTerminatedList(mem: seq<char>, names: seq<seq<char>>)
  {
    && (forall k :: 0 <= k < |names| ==> IsName(names[k]))
    && |Encode(names)| < |mem|
    && mem[..|Encode(names)| + 1] == Encode(names) + ['\0']
  }

  /**
   * The byte the scan's second cursor inspects before printing name k: its
   * cursor starts one byte after the first and drifts one byte further ahead
   * with every name printed, so it is k + 1 bytes into name k.
   */
  function Lookahead(mem: seq<char>, names: seq<seq<char>>, k: nat): char
    requires k < |names| && Offset(names, k) + 1 + k < |mem|
  {
    mem[Offset(names, k) + 1 + k]
  }

  /** Every byte the second cursor can inspect lies in readable memory. */
  predicate LookaheadReadable(mem: seq<char>, names: seq<seq<char>>)
  {
    forall k :: 0 <= k < |names| ==> Offset(names, k) + 1 + k < |mem|
  }

  /** A device list the scan can walk without reading outside `mem`. */
  predicate IsDeviceList(mem: seq<char>, names: seq<seq<char>>)
  {
    IsTerminatedList(mem, names) && LookaheadReadable(mem, names)
  }

  /**
   * The scan prints exactly the first `count` names: every earlier lookahead
   * byte was not NUL, and, unless the list is exhausted, name `count`'s is.
   */
  predicate StopsAfter(mem: seq<char>, names: seq<seq<char>>, count: nat)
    requires LookaheadReadable(mem, names)
  {
    && count <= |names|
    && (forall j :: 0 <= j < count ==> Lookahead(mem, names, j) != '\0')
    && (count < |names| ==> Lookahead(mem, names, count) == '\0')
  }

  /** Encoding distributes over concatenation of name lists. */
  lemma {:induction false} EncodeAppend(a: seq<seq<char>>, b: seq<seq<char>>)
    ensures Encode(a + b) == Encode(a) + Encode(b)
  {
    if a == [] {
      assert a + b == b;
    } else {
      assert (a + b)[0] == a[0];
      assert (a + b)[1..] == a[1..] + b;
      EncodeAppend(a[1..], b);
    }
  }

  /** Each name starts one byte after the NUL that ends the previous one. */
  lemma {:induction false} OffsetStep(names: seq<seq<char>>, k: nat)
    requires k < |names|
    ensures Offset(names, k + 1) == Offset(names, k) + |names[k]| + 1
  {
    assert names[..k + 1] == names[..k] + [names[k]];
    EncodeAppend(names[..k], [names[k]]);
    assert Encode([names[k]]) == names[k] + ['\0'] + Encode([]);
  }

  /** Name k sits at Offset(k) in the encoding, followed by its NUL. */
  lemma {:induction false} NameAt(names: seq<seq<char>>, k: nat)
    requires k < |names|
    ensures Offset(names, k) + |names[k]| < |Encode(names)|
    ensures Encode(names)[Offset(names, k)..Offset(names, k) + |names[k]|] == names[k]
    ensures Encode(names)[Offset(names, k) + |names[k]|] == '\0'
  {
    assert names == names[..k] + names[k..];
    EncodeAppend(names[..k], names[k..]);
    assert names[k..][0] == names[k];
    var tail := Encode(names[k..]);
    assert tail == names[k] + ['\0'] + Encode(names[k + 1..]) by {
      assert names[k..][1..] == names[k + 1..];
    }
    var off := Offset(names, k);
    assert Encode(names) == Encode(names[..k]) + tail;
    assert Encode(names)[off..off + |names[k]|] == tail[..|names[k]|];
  }

  /** Reading at `start`, strlen finds the distance to the next NUL. */
  function StrLen(mem: seq<char>, start: nat): (len: nat)
    requires start < |mem| && '\0' in mem[start..]
    ensures start + len < |mem| && mem[start + len] == '\0'
    ensures forall j :: start <= j < start + len ==> mem[j] != '\0'
    decreases |mem| - start
  {
    if mem[start] == '\0' then 0
    else
      assert '\0' in mem[start + 1..] by {
        var j :| start <= j < |mem| && mem[j] == '\0';
        assert mem[start + 1..][j - start - 1] == '\0';
      }
      1 + StrLen(mem, start + 1)
  }

  /** strlen is the distance to the first NUL: any NUL with none before it is the one it finds. */
  lemma {:induction false} StrLenIs(mem: seq<char>, start: nat, len: nat)
    requires start + len < |mem| && mem[start + len] == '\0'
    requires forall j :: start <= j < start + len ==> mem[j] != '\0'
    ensures '\0' in mem[start..] && StrLen(mem, start) == len
    decreases len
  {
    assert mem[start..][len] == '\0';
    if len > 0 {
      StrLenIs(mem, start + 1, len - 1);
    }
  }

  /** A terminated list agrees with its encoding, byte for byte. */
  lemma {:induction false} ListMatchesEncoding(mem: seq<char>, names: seq<seq<char>>, j: nat)
    requires IsTerminatedList(mem, names) && j < |Encode(names)|
    ensures mem[j] == Encode(names)[j]
  {
    assert mem[..|Encode(names)| + 1][j] == (Encode(names) + ['\0'])[j];
  }

  /** In a terminated list, name k's bytes sit at its offset, followed by its NUL. */
  lemma {:induction false} NameBytes(mem: seq<char>, names: seq<seq<char>>, k: nat)
    requires IsTerminatedList(mem, names) && k < |names|
    ensures Offset(names, k) + |names[k]| < |mem|
    ensures mem[Offset(names, k)..Offset(names, k) + |names[k]|] == names[k]
    ensures mem[Offset(names, k) + |names[k]|] == '\0'
  {
    NameAt(names, k);
    var off, e, n := Offset(names, k), Encode(names), names[k];
    ListMatchesEncoding(mem, names, off + |n|);
    forall j | off <= j < off + |n| ensures mem[j] == n[j - off] {
      ListMatchesEncoding(mem, names, j);
      assert e[off..off + |n|][j - off] == e[j];
    }
    SliceEquals(mem, off, n);
  }

  /** A slice equals a sequence that agrees with it index by index. */
  lemma {:induction false} SliceEquals(mem: seq<char>, off: nat, n: seq<char>)
    requires off + |n| <= |mem|
    requires forall j :: off <= j < off + |n| ==> mem[j] == n[j - off]
    ensures mem[off..off + |n|] == n
  {
    forall j | 0 <= j < |n| ensures mem[off..off + |n|][j] == n[j] {
      assert mem[off + j] == n[off + j - off];
    }
  }

  /** A name laid out at `off` and followed by a NUL has strlen equal to its length. */
  lemma {:induction false} StrLenOfLaidOutName(mem: seq<char>, off: nat, n: seq<char>)
    requires IsName(n) && off + |n| < |mem|
    requires mem[off..off + |n|] == n && mem[off + |n|] == '\0'
    ensures '\0' in mem[off..] && StrLen(mem, off) == |n|
  {
    forall j | off <= j < off + |n| ensures mem[j] != '\0' {
      assert mem[j] == mem[off..off + |n|][j - off];
    }
    StrLenIs(mem, off, |n|);
  }

  /** In a terminated list, strlen at name k's offset is the length of name k. */
  lemma {:induction false} StrLenOfName(mem: seq<char>, names: seq<seq<char>>, k: nat)
    requires IsTerminatedList(mem, names) && k < |names|
    ensures Offset(names, k) + |names[k]| < |mem|
    ensures '\0' in mem[Offset(names, k)..]
    ensures StrLen(mem, Offset(names, k)) == |names[k]|
    ensures mem[Offset(names, k)..Offset(names, k) + |names[k]|] == names[k]
  {
    NameBytes(mem, names, k);
    StrLenOfLaidOutName(mem, Offset(names, k), names[k]);
  }

  /** The first byte of name k is not NUL; the byte where the list ends is. */
  lemma {:induction false} ListBytes(mem: seq<char>, names: seq<seq<char>>, k: nat)
    requires IsTerminatedList(mem, names) && k <= |names|
    ensures Offset(names, k) < |mem|
    ensures k < |names| ==> mem[Offset(names, k)] != '\0'
    ensures k == |names| ==> mem[Offset(names, k)] == '\0'
  {
    if k < |names| {
      StrLenOfName(mem, names, k);
      assert mem[Offset(names, k)] == names[k][0];
    } else {
      assert names[..k] == names;
      assert mem[..|Encode(names)| + 1][|Encode(names)|] == '\0';
    }
  }

  /**
   * Reading name k of a terminated list: strlen gives its length, the bytes
   * there are the name, and name k + 1 (or the final NUL) starts right after.
   */
  lemma {:induction false} NextName(mem: seq<char>, names: seq<seq<char>>, k: nat)
    requires IsTerminatedList(mem, names) && k < |names|
    ensures Offset(names, k) + |names[k]| < |mem| && '\0' in mem[Offset(names, k)..]
    ensures StrLen(mem, Offset(names, k)) == |names[k]|
    ensures mem[Offset(names, k)..Offset(names, k) + |names[k]|] == names[k]
    ensures Offset(names, k + 1) == Offset(names, k) + |names[k]| + 1 < |mem|
    ensures k + 1 < |names| <==> mem[Offset(names, k + 1)] != '\0'
  {
    StrLenOfName(mem, names, k);
    OffsetStep(names, k);
    ListBytes(mem, names, k + 1);
  }

  /**
   * The scan's state before its k-th test: `device` is at name k (or at the
   * final NUL), `next` is k bytes further than one past it, the first k names
   * are printed, and every lookahead so far was not NUL.
   */
  ghost predicate ListScan(mem: seq<char>, names: seq<seq<char>>, k: nat, device: nat, next: nat, printed: seq<seq<char>>)
    requires IsDeviceList(mem, names)
  {
    && k <= |names| && printed == names[..k]
    && device == Offset(names, k) && next == device + 1 + k
    && (forall j :: 0 <= j < k ==> Lookahead(mem, names, j) != '\0')
    && device < |mem| && (k < |names| ==> next < |mem|)
    && (k < |names| <==> mem[device] != '\0')
  }

  /** Before the first test nothing is printed and the cursors are at bytes 0 and 1. */
  lemma {:induction false} ListScanStart(mem: seq<char>, names: seq<seq<char>>)
    requires IsDeviceList(mem, names)
    ensures ListScan(mem, names, 0, 0, 1, [])
  {
    ListBytes(mem, names, 0);
    assert Offset(names, 0) == 0 by {
      assert names[..0] == [];
    }
  }

  /** Printing name k and moving both cursors past it keeps ListScan. */
  lemma {:induction false} ListScanStep(mem: seq<char>, names: seq<seq<char>>, k: nat, device: nat, next: nat,
                                        printed: seq<seq<char>>, device': nat, next': nat, printed': seq<seq<char>>)
    requires IsDeviceList(mem, names) && ListScan(mem, names, k, device, next, printed)
    requires mem[device] != '\0' && mem[next] != '\0'
    requires '\0' in mem[device..] && device + StrLen(mem, device) < |mem|
    requires device' == device + StrLen(mem, device) + 1 && next' == next + StrLen(mem, device) + 2
    requires printed' == printed + [mem[device..device + StrLen(mem, device)]]
    ensures ListScan(mem, names, k + 1, device', next', printed')
  {
    NextName(mem, names, k);
    assert Lookahead(mem, names, k) == mem[next];
    assert names[..k + 1] == names[..k] + [names[k]];
  }

  /** Under ListScan, strlen can be taken at `device` while it reads a name. */
  lemma {:induction false} ListScanName(mem: seq<char>, names: seq<seq<char>>, k: nat, device: nat, next: nat,
                                        printed: seq<seq<char>>)
    requires IsDeviceList(mem, names) && ListScan(mem, names, k, device, next, printed)
    requires mem[device] != '\0'
    ensures '\0' in mem[device..] && device + StrLen(mem, device) < |mem|
  {
    NextName(mem, names, k);
  }

  /** When either cursor reads a NUL the scan has printed exactly the names StopsAfter describes. */
  lemma {:induction false} ListScanDone(mem: seq<char>, names: seq<seq<char>>, k: nat, device: nat, next: nat,
                                        printed: seq<seq<char>>)
    requires IsDeviceList(mem, names) && ListScan(mem, names, k, device, next, printed)
    requires mem[device] == '\0' || (next < |mem| && mem[next] == '\0')
    ensures StopsAfter(mem, names, k) && |printed| == k && printed == names[..k]
  {
    if k < |names| {
      assert Lookahead(mem, names, k) == mem[next];
    }
  }

  /**
   * `list_audio_devices`: prints the name under `device` while both the byte
   * under `device` and the byte under `next` are not NUL; after each name,
   * `device` moves past the name's NUL and `next` moves one byte further.
   */
  method ListAudioDevices(devices: DeviceString, ghost names: seq<seq<char>>) returns (printed: seq<seq<char>>)
    requires devices.Memory? ==> IsDeviceList(devices.bytes, names)
    ensures devices.Null? ==> printed == []
    ensures devices.Memory? ==> && StopsAfter(devices.bytes, names, |printed|)
                                && printed == names[..|printed|]
  {
    printed := [];
    match devices
    case Null =>
    case Memory(mem) =>
      var device: nat := 0;
      var next: nat := 1;
      var len := 0;
      ghost var k := 0;
      ListScanStart(mem, names);
      while mem[device] != '\0' && mem[next] != '\0'
        invariant ListScan(mem, names, k, device, next, printed)
        decreases |names| - k
      {
        ListScanName(mem, names, k, device, next, printed);
        ghost var device0, next0, printed0 := device, next, printed;
        len := StrLen(mem, device);
        printed := printed + [mem[device..device + len]];
        device := device + (len + 1);
        next := next + (len + 2);
        ListScanStep(mem, names, k, device0, next0, printed0, device, next, printed);
        k := k + 1;
      }
      ListScanDone(mem, names, k, device, next, printed);
  }

  /**
   * A name whose length is its 0-based position plus one is never printed:
   * the lookahead for it lands on its own terminating NUL, so the scan stops
   * at it or earlier.
   */
  lemma {:induction false} ShortNameStopsScan(mem: seq<char>, names: seq<seq<char>>, k: nat, count: nat)
    requires IsDeviceList(mem, names) && StopsAfter(mem, names, count)
    requires k < |names| && |names[k]| == k + 1
    ensures count <= k
  {
    NameAt(names, k);
    StrLenOfName(mem, names, k);
    assert Lookahead(mem, names, k) == '\0' by {
      assert mem[..|Encode(names)| + 1][Offset(names, k) + |names[k]|] == Encode(names)[Offset(names, k) + |names[k]|];
    }
  }

  /** When name k is longer than k + 1 bytes, the lookahead for it reads a byte of the name itself. */
  lemma {:induction false} LookaheadInsideName(mem: seq<char>, names: seq<seq<char>>, k: nat)
    requires IsDeviceList(mem, names) && k < |names| && |names[k]| > k + 1
    ensures Lookahead(mem, names, k) == names[k][k + 1] && Lookahead(mem, names, k) != '\0'
  {
    StrLenOfName(mem, names, k);
    var off := Offset(names, k);
    assert mem[off..off + |names[k]|][k + 1] == mem[off + k + 1];
  }

  /** Where every name k is longer than k + 1 bytes, every name is printed. */
  lemma {:induction false} LongNamesAllPrinted(mem: seq<char>, names: seq<seq<char>>, count: nat)
    requires IsDeviceList(mem, names) && StopsAfter(mem, names, count)
    requires forall k :: 0 <= k < |names| ==> |names[k]| > k + 1
    ensures count == |names|
  {
    forall k | 0 <= k < |names| ensures Lookahead(mem, names, k) != '\0' {
      LookaheadInsideName(mem, names, k);
    }
  }

  /** The scan's stopping point is determined by the memory. */
  lemma {:induction false} StopIsUnique(mem: seq<char>, names: seq<seq<char>>, c1: nat, c2: nat)
    requires LookaheadReadable(mem, names)
    requires StopsAfter(mem, names, c1) && StopsAfter(mem, names, c2)
    ensures c1 == c2
  {
  }

  /** An empty list prints nothing. */
  lemma {:induction false} EmptyListPrintsNothing(mem: seq<char>, count: nat)
    requires StopsAfter(mem, [], count)
    ensures count == 0
  {
  }

  /**
   * A one-character first device name is never printed: with memory "A\0\0",
   * which lists the single device "A", the scan prints nothing.
   */
  lemma {:induction false} OneCharacterFirstNameDropped(count: nat)
    requires IsDeviceList("A\0\0", ["A"]) && StopsAfter("A\0\0", ["A"], count)
    ensures count == 0
  {
    ShortNameStopsScan("A\0\0", ["A"], 0, count);
  }

  /** The memory "A\0\0" does list the single device "A" in the form the scan expects. */
  lemma {:induction false} OneCharacterListIsWellFormed()
    ensures IsDeviceList("A\0\0", ["A"])
  {
    assert Encode(["A"]) == "A\0" by {
      assert ["A"][1..] == [];
    }
    assert Offset(["A"], 0) == 0 by {
      assert ["A"][..0] == [];
    }
  }

  /** The layout of the three names "AB", "C" and "D": they start at 0, 3 and 5, and take 7 bytes. */
  lemma {:induction false} ThreeNameLayout()
    ensures Encode(["AB", "C", "D"]) == "AB\0C\0D\0"
    ensures Offset(["AB", "C", "D"], 0) == 0
    ensures Offset(["AB", "C", "D"], 1) == 3
    ensures Offset(["AB", "C", "D"], 2) == 5
  {
    var names: seq<seq<char>> := ["AB", "C", "D"];
    assert Encode(names[2..]) == "D\0" by {
      assert names[2..][1..] == [];
    }
    assert Encode(names[1..]) == "C\0D\0" by {
      assert names[1..][1..] == names[2..];
    }
    assert Encode(names[..0]) == [] by {
      assert names[..0] == [];
    }
    assert Encode(names[..1]) == "AB\0" by {
      assert names[..1][1..] == [];
    }
    assert Encode(names[..2]) == "AB\0C\0" by {
      assert names[..2][1..] == ["C"];
      assert ["C"][1..] == [];
    }
  }

  /**
   * The second cursor can read past the list: for the names "AB", "C" and
   * "D", laid out in the 8 bytes "AB\0C\0D\0\0", the lookahead for "D" is
   * the byte after the list. Whether "D" is printed depends on that byte.
   */
  lemma {:induction false} LookaheadPastList()
    ensures IsTerminatedList("AB\0C\0D\0\0", ["AB", "C", "D"])
    ensures !LookaheadReadable("AB\0C\0D\0\0", ["AB", "C", "D"])
    ensures LookaheadReadable("AB\0C\0D\0\0x", ["AB", "C", "D"])
            && StopsAfter("AB\0C\0D\0\0x", ["AB", "C", "D"], 3)
    ensures LookaheadReadable("AB\0C\0D\0\0\0", ["AB", "C", "D"])
            && StopsAfter("AB\0C\0D\0\0\0", ["AB", "C", "D"], 2)
  {
    ThreeNameLayout();
    var names: seq<seq<char>> := ["AB", "C", "D"];
    var mem := "AB\0C\0D\0\0";
    assert mem[..8] == Encode(names) + ['\0'];
    assert Offset(names, 2) + 1 + 2 == |mem|;
    var more := mem + ['x'];
    assert Lookahead(more, names, 0) == 'B' && Lookahead(more, names, 1) == 'D';
    assert Lookahead(more, names, 2) == 'x';
    var ended := mem + ['\0'];
    assert Lookahead(ended, names, 0) == 'B' && Lookahead(ended, names, 1) == 'D';
    assert Lookahead(ended, names, 2) == '\0';
  }

  /**
   * The listing the loop evidently intends: print the name under `device`
   * while it is not empty, that is up to the NUL that ends the list.
   */
  method ListAllAudioDevices(devices: DeviceString, ghost names: seq<seq<char>>) returns (printed: seq<seq<char>>)
    requires devices.Memory? ==> IsTerminatedList(devices.bytes, names)
    ensures devices.Null? ==> printed == []
    ensures devices.Memory? ==> printed == names
  {
    printed := [];
    match devices
    case Null =>
    case Memory(mem) =>
      var device := 0;
      ghost var k := 0;
      ListBytes(mem, names, 0);
      while mem[device] != '\0'
        invariant 0 <= k <= |names| && printed == names[..k]
        invariant device == Offset(names, k) && device < |mem|
        invariant (k < |names| <==> mem[device] != '\0')
        decreases |names| - k
      {
        NextName(mem, names, k);
        var len := StrLen(mem, device);
        printed := printed + [mem[device..device + len]];
        assert names[..k + 1] == names[..k] + [names[k]];
        device := device + (len + 1);
        k := k + 1;
      }
      assert names[..k] == names;
  }

  type int16 = x: int | -0x8000 <= x < 0x8000

  /** The four OpenAL buffer formats, and the value -1 for "no format". */
  datatype AlFormat = Mono8 | Mono16 | Stereo8 | Stereo16 | NoFormat

  /** The sample width of a format, in bits. */
  function BitsOf(f: AlFormat): nat
  {
    match f
    case Mono8 => 8
    case Stereo8 => 8
    case Mono16 => 16
    case Stereo16 => 16
    case NoFormat => 0
  }

  /** The channel count of a format. */
  function ChannelsOf(f: AlFormat): nat
  {
    match f
    case Mono8 => 1
    case Mono16 => 1
    case Stereo8 => 2
    case Stereo16 => 2
    case NoFormat => 0
  }

  /**
   * `to_al_format`: 16-bit and 8-bit samples map to the stereo format when
   * there is more than one channel and to the mono format otherwise; any
   * other width gives -1.
   */
  function ToAlFormat(channels: int16, samples: int16): (f: AlFormat)
    ensures f == NoFormat <==> samples != 8 && samples != 16
    ensures f != NoFormat ==> BitsOf(f) == samples
    ensures f != NoFormat ==> ChannelsOf(f) == if channels > 1 then 2 else 1
  {
    if samples == 16 then (if channels > 1 then Stereo16 else Mono16)
    else if samples == 8 then (if channels > 1 then Stereo8 else Mono8)
    else NoFormat
  }
}
