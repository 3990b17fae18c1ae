/** Reassembly of an ELM reply: ISO-TP frames with the CAN id printed (N_PCI as
    in section 9.6 of ISO 15765-2:2016), indexed rows without it, and the frames
    rebuilt from a framing-free payload. */
module IsoTp {
  import opened Wrappers
  import opened Bits
  import opened Seqs

  /** One parsed line of chip text. `isoIndex` is the `N:` of a row, -1 without
      one; `ea` is 1 when the first byte is an extended address. */
  datatype Line = Line(bytes: seq<byte>, header: Option<nat>, isoIndex: int, ea: nat)

  function Min(a: int, b: int): int {
    if a <= b then a else b
  }

  function Take<T>(s: seq<T>, n: nat): seq<T> {
    if n < |s| then s[..n] else s
  }

  // ---- the extended address byte -------------------------------------------------

  /** A plausible N_PCI byte for the `rest` bytes that follow it. */
  predicate PciFits(pci: byte, rest: nat) {
    match pci / 16
    case 0 => 1 <= pci % 16 <= rest
    case 1 => rest >= 2
    case 2 => true
    case _ => false
  }

  /** A line with a header whose first byte is no N_PCI and whose second one is,
      and fits: extended addressing. */
  function TakeEa(bytes: seq<byte>, hasHeader: bool): nat {
    if hasHeader && |bytes| >= 3 && bytes[0] / 16 > 3 && PciFits(bytes[1], |bytes| - 2) then 1 else 0
  }

  // ---- assembly of one responder's frames -----------------------------------------

  /** The line is a frame of that responder with something behind the address. */
  predicate Mine(l: Line, id: nat) {
    l.header == Some(id) && |l.bytes| > l.ea
  }

  /** The payload bytes of one frame, by its N_PCI; without one, all of it. */
  function FrameData(b: seq<byte>): seq<byte>
    requires |b| > 0
  {
    match b[0] / 16
    case 0 => b[1..1 + Min(b[0] % 16, |b| - 1)]
    case 1 => if |b| < 2 then [] else b[2..]
    case 2 => b[1..]
    case _ => b
  }

  /** The length a first frame announces. */
  function Announced(b: seq<byte>): Option<nat>
    requires |b| > 0
  {
    if b[0] / 16 == 1 && |b| >= 2 then Some(Length12(b[0], b[1])) else None
  }

  function Length12(hi: int, lo: int): int {
    hi % 16 * 256 + lo
  }

  function AllData(lines: seq<Line>, id: nat): seq<byte> {
    if lines == [] then []
    else
      var k := |lines| - 1;
      AllData(lines[..k], id) + LineData(lines[k], id)
  }

  function LineData(l: Line, id: nat): seq<byte> {
    if Mine(l, id) then FrameData(l.bytes[l.ea..]) else []
  }

  function LastAnnounced(lines: seq<Line>, id: nat): Option<nat> {
    if lines == [] then None
    else
      var k := |lines| - 1;
      var here := LineAnnounced(lines[k], id);
      if here.Some? then here else LastAnnounced(lines[..k], id)
  }

  function LineAnnounced(l: Line, id: nat): Option<nat> {
    if Mine(l, id) then Announced(l.bytes[l.ea..]) else None
  }

  /** What the responder's frames hold, as much as the buffer takes, cut to the
      announced length. */
  function Assembled(lines: seq<Line>, id: nat, cap: nat): seq<byte> {
    var data := Take(AllData(lines, id), cap);
    match LastAnnounced(lines, id)
    case None => data
    case Some(n) => Take(data, n)
  }

  /** The first n elements of the buffer are what it can take of `all`. */
  ghost predicate Holds(buf: array<byte>, n: nat, all: seq<byte>)
    reads buf
  {
    n <= buf.Length && buf[..n] == Take(all, buf.Length)
  }

  /** Copy what fits behind the n bytes of the buffer. */
  method Put(buf: array<byte>, n: nat, src: seq<byte>, ghost all: seq<byte>) returns (m: nat)
    requires Holds(buf, n, all)
    modifies buf
    ensures Holds(buf, m, all + src)
  {
    m := n;
    var i := 0;
    ghost var was := buf[..n];
    while i < |src| && m < buf.Length
      invariant 0 <= i <= |src| && m == n + i <= buf.Length
      invariant buf[..m] == was + src[..i]
    {
      buf[m] := src[i];
      m := m + 1;
      i := i + 1;
      assert buf[..m] == was + src[..i];
    }
    if |all| < buf.Length {
      assert src[..i] == Take(src, buf.Length - n);
    }
  }

  /** The stretch of a frame that is payload, and the length it announces. */
  method ReadPci(b: seq<byte>) returns (data: seq<byte>, announced: Option<nat>)
    requires |b| > 0
    ensures data == FrameData(b) && announced == Announced(b)
  {
    announced := None;
    var pci := b[0] / 16;
    var start, count;
    if pci == 0 {
      count, start := b[0] % 16, 1;
      if count > |b| - 1 {
        count := |b| - 1;
      }
    } else if pci == 1 {
      if |b| < 2 {
        return [], None;
      }
      announced := Some(Length12(b[0], b[1]));
      start, count := 2, |b| - 2;
    } else if pci == 2 {
      start, count := 1, |b| - 1;
    } else {
      start, count := 0, |b|;
    }
    data := b[start..start + count];
  }

  method AssembleHeaderFrames(lines: seq<Line>, id: nat, payload: array<byte>) returns (n: nat)
    modifies payload
    ensures n <= payload.Length && payload[..n] == Assembled(lines, id, payload.Length)
  {
    n := 0;
    var announced := None;
    for i := 0 to |lines|
      invariant Holds(payload, n, AllData(lines[..i], id))
      invariant announced == LastAnnounced(lines[..i], id)
    {
      var l := lines[i];
      assert lines[..i + 1] == lines[..i] + [l];
      DataSnoc(lines[..i], l, id);
      AnnouncedSnoc(lines[..i], l, id);
      if l.header != Some(id) || |l.bytes| <= l.ea {
        continue;
      }
      var data, here := ReadPci(l.bytes[l.ea..]);
      if here.Some? {
        announced := here;
      }
      n := Put(payload, n, data, AllData(lines[..i], id));
    }
    assert lines[..|lines|] == lines;
    if announced.Some? && announced.value < n {
      n := announced.value;
    }
  }

  // ---- only the responder's own lines count -----------------------------------------

  function Own(lines: seq<Line>, id: nat): seq<Line> {
    if lines == [] then []
    else
      var k := |lines| - 1;
      Own(lines[..k], id) + if lines[k].header == Some(id) then [lines[k]] else []
  }

  lemma OwnSnoc(a: seq<Line>, l: Line, id: nat)
    ensures Own(a + [l], id) == Own(a, id) + if l.header == Some(id) then [l] else []
  {
    SnocInit(a, l);
  }

  /** Whatever other responders put between them: the assembly is that of the
      responder's own lines in their order. */
  lemma {:induction false} OnlyOwnLines(lines: seq<Line>, id: nat)
    ensures AllData(lines, id) == AllData(Own(lines, id), id)
    ensures LastAnnounced(lines, id) == LastAnnounced(Own(lines, id), id)
  {
    if lines != [] {
      var k := |lines| - 1;
      OnlyOwnLines(lines[..k], id);
      if lines[k].header == Some(id) {
        var own := Own(lines, id);
        assert own[..|own| - 1] == Own(lines[..k], id);
      } else {
        assert Own(lines, id) == Own(lines[..k], id);
      }
    }
  }

  lemma {:induction false} AssembledFromOwn(a: seq<Line>, b: seq<Line>, id: nat, cap: nat)
    requires Own(a, id) == Own(b, id)
    ensures Assembled(a, id, cap) == Assembled(b, id, cap)
  {
    OnlyOwnLines(a, id);
    OnlyOwnLines(b, id);
  }

  // ---- the frames of a framing-free payload -------------------------------------------

  /** Consecutive frame number sn carries payload bytes at.. (seven at most, the
      last one padded with zeros). */
  function Consecutive(p: seq<byte>, at: nat, sn: nat): seq<byte>
    requires at <= |p|
  {
    var piece := p[at..Min(at + 7, |p|)];
    [(0x20 + sn % 16) as byte] + piece + seq(7 - |piece|, _ => 0)
  }

  function ConsecutiveFrames(p: seq<byte>, at: nat, sn: nat): seq<byte>
    requires at <= |p|
    decreases |p| - at
  {
    if at == |p| then []
    else Consecutive(p, at, sn) + ConsecutiveFrames(p, Min(at + 7, |p|), sn + 1)
  }

  function FramesOf(p: seq<byte>): seq<byte> {
    if |p| == 0 then []
    else if |p| <= 7 then [|p| as byte] + p
    else FirstFrame(p) + ConsecutiveFrames(p, 6, 1)
  }

  /** One consecutive frame into the buffer. */
  method PutConsecutive(p: seq<byte>, at: nat, sn: nat, out: array<byte>, n: nat, ghost all: seq<byte>)
    returns (m: nat)
    requires at < |p| && Holds(out, n, all)
    modifies out
    ensures Holds(out, m, all + Consecutive(p, at, sn))
  {
    var take := |p| - at;
    if take > 7 {
      take := 7;
    }
    var piece, zeros: seq<byte> := p[at..at + take], seq(7 - take, _ => 0);
    var pci := [(0x20 + sn % 16) as byte];
    m := Put(out, n, pci, all);
    m := Put(out, m, piece, all + pci);
    m := Put(out, m, zeros, all + pci + piece);
    assert all + pci + piece + zeros == all + (pci + piece + zeros);
  }

  function FirstFrame(p: seq<byte>): seq<byte>
    requires |p| >= 6
  {
    [(0x10 + |p| / 256 % 16) as byte, (|p| % 256) as byte] + p[..6]
  }

  /** The frames the chip would have printed with headers on. */
  method FramesFromPayload(p: seq<byte>, out: array<byte>) returns (n: nat)
    modifies out
    ensures Holds(out, n, FramesOf(p))
  {
    n := 0;
    if |p| == 0 {
      return;
    }
    if |p| <= 7 {
      n := Put(out, n, [|p| as byte], []);
      n := Put(out, n, p, [] + [|p| as byte]);
      return;
    }
    n := Put(out, n, [(0x10 + |p| / 256 % 16) as byte, (|p| % 256) as byte], []);
    n := Put(out, n, p[..6], [] + [(0x10 + |p| / 256 % 16) as byte, (|p| % 256) as byte]);
    assert Holds(out, n, FirstFrame(p));
    n := PutConsecutives(p, out, n);
  }

  method PutConsecutives(p: seq<byte>, out: array<byte>, was: nat) returns (n: nat)
    requires |p| > 7 && Holds(out, was, FirstFrame(p))
    modifies out
    ensures Holds(out, n, FramesOf(p))
  {
    n := was;
    var at, sn := 6, 1;
    ghost var done := FirstFrame(p);
    while at < |p|
      invariant 6 <= at <= |p|
      invariant done + ConsecutiveFrames(p, at, sn) == FramesOf(p)
      invariant Holds(out, n, done)
    {
      n := PutConsecutive(p, at, sn, out, n, done);
      Assoc(done, Consecutive(p, at, sn), ConsecutiveFrames(p, Min(at + 7, |p|), sn + 1));
      done := done + Consecutive(p, at, sn);
      at, sn := Min(at + 7, |p|), sn + 1;
    }
    assert done + [] == done;
  }

  /** The printed frames: one, or pieces of eight bytes. */
  function Cut(frames: seq<byte>): seq<seq<byte>> {
    if |frames| <= 8 then [frames] else [frames[..8]] + Cut(frames[8..])
  }

  function AsLines(frames: seq<seq<byte>>, id: nat): seq<Line> {
    seq(|frames|, i requires 0 <= i < |frames| =>
      Line(frames[i], Some(id), -1, TakeEa(frames[i], true)))
  }

  lemma {:induction false} DataAppend(a: seq<Line>, b: seq<Line>, id: nat)
    ensures AllData(a + b, id) == AllData(a, id) + AllData(b, id)
  {
    if b == [] {
      assert a + b == a;
    } else {
      SnocParts(a, b);
      DataAppend(a, Init(b), id);
      DataSnoc(Init(b), Last(b), id);
      DataSnoc(a + Init(b), Last(b), id);
      Assoc(AllData(a, id), AllData(Init(b), id), LineData(Last(b), id));
    }
  }

  lemma DataSnoc(a: seq<Line>, l: Line, id: nat)
    ensures AllData(a + [l], id) == AllData(a, id) + LineData(l, id)
  {
    SnocInit(a, l);
  }

  lemma {:induction false} AnnouncedAppend(a: seq<Line>, b: seq<Line>, id: nat)
    ensures LastAnnounced(a + b, id) ==
      if LastAnnounced(b, id).Some? then LastAnnounced(b, id) else LastAnnounced(a, id)
  {
    if b == [] {
      assert a + b == a;
    } else {
      SnocParts(a, b);
      AnnouncedAppend(a, Init(b), id);
      AnnouncedSnoc(Init(b), Last(b), id);
      AnnouncedSnoc(a + Init(b), Last(b), id);
    }
  }

  lemma AnnouncedSnoc(a: seq<Line>, l: Line, id: nat)
    ensures LastAnnounced(a + [l], id) ==
      if LineAnnounced(l, id).Some? then LineAnnounced(l, id) else LastAnnounced(a, id)
  {
    SnocInit(a, l);
  }

  lemma OneFrame(f: seq<byte>, id: nat)
    requires |f| > 0 && f[0] / 16 <= 2
    ensures AllData(AsLines([f], id), id) == FrameData(f)
    ensures LastAnnounced(AsLines([f], id), id) == Announced(f)
  {
    var lines := AsLines([f], id);
    assert lines[0].bytes[0..] == f;
    assert lines[..0] == [];
  }

  lemma LinesCons(f: seq<byte>, rest: seq<seq<byte>>, id: nat)
    ensures AsLines([f] + rest, id) == AsLines([f], id) + AsLines(rest, id)
  {
  }

  lemma ConsecutiveShape(p: seq<byte>, at: nat, sn: nat)
    requires at < |p|
    ensures var f := Consecutive(p, at, sn);
      var next := Min(at + 7, |p|);
      && |f| == 8 && f[0] / 16 == 2 && Announced(f) == None
      && p[at..next] <= FrameData(f)
      && (next < |p| ==> FrameData(f) == p[at..next])
      && Cut(ConsecutiveFrames(p, at, sn)) ==
         if next < |p| then [f] + Cut(ConsecutiveFrames(p, next, sn + 1)) else [f]
  {
    var f := Consecutive(p, at, sn);
    var next := Min(at + 7, |p|);
    var all, rest := ConsecutiveFrames(p, at, sn), ConsecutiveFrames(p, next, sn + 1);
    assert all == f + rest && all[..8] == f && all[8..] == rest;
    if next < |p| {
      assert |rest| >= 8;
    } else {
      assert all == f;
    }
  }

  /** The data of consecutive frames is the rest of the payload, then zeros. */
  lemma {:induction false} ConsecutiveData(p: seq<byte>, at: nat, sn: nat, id: nat)
    requires at < |p|
    ensures var lines := AsLines(Cut(ConsecutiveFrames(p, at, sn)), id);
      LastAnnounced(lines, id) == None && p[at..] <= AllData(lines, id)
    decreases |p| - at
  {
    var next := Min(at + 7, |p|);
    var f := Consecutive(p, at, sn);
    ConsecutiveShape(p, at, sn);
    OneFrame(f, id);
    TailParts(p, at, next);
    if next < |p| {
      var rest := Cut(ConsecutiveFrames(p, next, sn + 1));
      var one, more := AsLines([f], id), AsLines(rest, id);
      LinesCons(f, rest, id);
      DataAppend(one, more, id);
      AnnouncedAppend(one, more, id);
      ConsecutiveData(p, next, sn + 1, id);
      JoinPrefix(p[at..], p[at..next], p[next..], AllData(more, id), AllData(one + more, id));
    } else {
      assert p[at..next] == p[at..];
    }
  }

  lemma JoinPrefix<T>(whole: seq<T>, a: seq<T>, b: seq<T>, c: seq<T>, all: seq<T>)
    requires whole == a + b && b <= c && all == a + c
    ensures whole <= all
  {
  }

  /** No frame rebuilt from a payload is taken for an extended-address one. */
  lemma {:induction false} NoExtendedAddress(p: seq<byte>, at: nat, sn: nat)
    requires at <= |p|
    ensures forall f <- Cut(ConsecutiveFrames(p, at, sn)) :: TakeEa(f, true) == 0
    decreases |p| - at
  {
    if at < |p| {
      var f := Consecutive(p, at, sn);
      var all := ConsecutiveFrames(p, at, sn);
      assert all[..8] == f && all[8..] == ConsecutiveFrames(p, Min(at + 7, |p|), sn + 1);
      assert f[0] / 16 == 2;
      NoExtendedAddress(p, Min(at + 7, |p|), sn + 1);
    }
  }

  lemma NoFrameExtended(p: seq<byte>)
    ensures forall f <- Cut(FramesOf(p)) :: TakeEa(f, true) == 0
  {
    if |p| > 7 {
      var all := FramesOf(p);
      assert all[0] / 16 == 1;
      assert all[8..] == ConsecutiveFrames(p, 6, 1);
      NoExtendedAddress(p, 6, 1);
    }
  }

  /** Frames rebuilt from a payload, cut, and reassembled: the payload, with the
      padding gone, for every payload an ISO-TP length can announce and every
      buffer that holds it. */
  lemma FramesRoundTrip(p: seq<byte>, id: nat, cap: nat)
    requires 1 <= |p| <= 4095 && |p| <= cap
    ensures Assembled(AsLines(Cut(FramesOf(p)), id), id, cap) == p
  {
    if |p| <= 7 {
      ShortFrame(p, id);
    } else {
      LongFrames(p, id);
    }
    CutToLength(p, AllData(AsLines(Cut(FramesOf(p)), id), id), cap);
  }

  lemma CutToLength(p: seq<byte>, all: seq<byte>, cap: nat)
    requires p <= all && |p| <= cap
    ensures Take(Take(all, cap), |p|) == p
    ensures p == all ==> Take(all, cap) == p
  {
  }

  lemma ShortFrame(p: seq<byte>, id: nat)
    requires 1 <= |p| <= 7
    ensures var lines := AsLines(Cut(FramesOf(p)), id);
      LastAnnounced(lines, id) == None && AllData(lines, id) == p
  {
    var f := [|p| as byte] + p;
    assert FramesOf(p) == f && Cut(f) == [f];
    assert f[0] == |p|;
    assert FrameData(f) == f[1..1 + |p|] == p;
    OneFrame(f, id);
  }

  lemma LongFrames(p: seq<byte>, id: nat)
    requires 7 < |p| <= 4095
    ensures var lines := AsLines(Cut(FramesOf(p)), id);
      LastAnnounced(lines, id) == Some(|p|) && p <= AllData(lines, id)
  {
    var all, rest := FramesOf(p), ConsecutiveFrames(p, 6, 1);
    var f := all[..8];
    ConsecutiveShape(p, 6, 1);
    assert |rest| >= 8;
    assert all[8..] == rest && Cut(all) == [f] + Cut(rest);
    FirstShape(p);
    OneFrame(f, id);
    LinesCons(f, Cut(rest), id);
    var one, more := AsLines([f], id), AsLines(Cut(rest), id);
    DataAppend(one, more, id);
    AnnouncedAppend(one, more, id);
    ConsecutiveData(p, 6, 1, id);
    TailParts(p, 0, 6);
    JoinPrefix(p, p[..6], p[6..], AllData(more, id), AllData(one + more, id));
  }

  lemma FirstShape(p: seq<byte>)
    requires 7 < |p| <= 4095
    ensures var f := FirstFrame(p);
      |f| == 8 && f[0] / 16 == 1 && FrameData(f) == p[..6] && Announced(f) == Some(|p|)
  {
  }
}
