/** Epiphany addresses as the host sees them. The top twelve bits of a 32-bit address are the coreid,
    six bits of row and six of column; masks and shifts are written as division and remainder. */
module Addresses {
  import opened Words
  import H = Handshake

  const NULL := 0
  const MEGABYTE := 0x10_0000
  const COORDS := 64

  /** An external memory segment: its Epiphany base and size, and where it is mapped on the host. */
  datatype Segment = Segment(ephyBase: nat, size: nat, base: nat)

  /** The workgroup's corner, the host address at which each core's memory is mapped, the segments. */
  datatype Control = Control(row: nat, col: nat, bases: seq<seq<nat>>, cols: nat, segments: seq<Segment>)

  predicate Valid(k: Control) {
    && (forall r :: 0 <= r < |k.bases| ==> |k.bases[r]| == k.cols)
    && (forall r, c :: 0 <= r < |k.bases| && 0 <= c < k.cols ==> k.bases[r][c] > 0)
    && (forall i :: 0 <= i < |k.segments| ==> k.segments[i].base > 0)
    && k.row + |k.bases| <= COORDS && k.col + k.cols <= COORDS
  }

  predicate InGroup(k: Control, r: int, c: int) {
    0 <= r < |k.bases| && 0 <= c < k.cols
  }

  predicate Covers(g: Segment, a: nat) {
    g.ephyBase <= a < g.ephyBase + g.size
  }

  function HostAddress(g: Segment, a: nat): nat
    requires Covers(g, a)
  {
    g.base + (a - g.ephyBase)
  }

  predicate External(k: Control, a: nat) {
    exists i :: 0 <= i < |k.segments| && Covers(k.segments[i], a)
  }

  /** The last segment that covers the address decides; without one the result is null. */
  function BySegments(segments: seq<Segment>, a: nat): nat {
    if segments == [] then NULL
    else
      var n := |segments| - 1;
      if Covers(segments[n], a) then HostAddress(segments[n], a) else BySegments(segments[..n], a)
  }

  /** The coreid of a core of the workgroup, and its row and column recovered from an address. */
  function CoreId(k: Control, r: nat, c: nat): nat {
    (k.row + r) * COORDS + (k.col + c)
  }

  function RowOf(k: Control, a: nat): int {
    a / MEGABYTE / COORDS % COORDS - k.row
  }

  function ColOf(k: Control, a: nat): int {
    a / MEGABYTE % COORDS - k.col
  }

  function Translate(k: Control, row: nat, col: nat, a: nat): nat
    requires Valid(k) && InGroup(k, row, col)
  {
    if a == NULL then NULL
    else if a < MEGABYTE then k.bases[row][col] + a
    else
      var s := BySegments(k.segments, a);
      if s != NULL then s
      else if InGroup(k, RowOf(k, a), ColOf(k, a)) then k.bases[RowOf(k, a)][ColOf(k, a)] + a % MEGABYTE
      else NULL
  }

  /** Segment `i` covers the address and no later one does. */
  predicate LastCovering(segments: seq<Segment>, a: nat, i: nat) {
    && i < |segments| && segments[i].ephyBase <= a < segments[i].ephyBase + segments[i].size
    && forall j :: i < j < |segments| ==> !(segments[j].ephyBase <= a < segments[j].ephyBase + segments[j].size)
  }

  /** Where on the host the byte is that core (row, col) has at `a`: null stays null; an address below one
      megabyte lies as far into the core's own mapping; an address in external memory lies as far into the
      mapping of the last segment that covers it; any other belongs to the core that bits 26 to 31 (row)
      and 20 to 25 (column) name, if that is in the workgroup, and lies in its mapping as far as the low
      twenty bits say. */
  predicate Located(k: Control, row: nat, col: nat, a: nat, host: nat)
    requires Valid(k) && InGroup(k, row, col)
  {
    && (a == 0 ==> host == 0)
    && (0 < a < 0x10_0000 ==> host == k.bases[row][col] + a)
    && (a >= 0x10_0000 ==>
          forall i :: 0 <= i < |k.segments| && LastCovering(k.segments, a, i) ==>
            host == k.segments[i].base + (a - k.segments[i].ephyBase))
    && (a >= 0x10_0000 && (forall i :: 0 <= i < |k.segments| ==> !LastCovering(k.segments, a, i)) ==>
          var r, c := a / 0x400_0000 % 64 - k.row, a / 0x10_0000 % 64 - k.col;
          host == if 0 <= r < |k.bases| && 0 <= c < k.cols then k.bases[r][c] + a % 0x10_0000 else 0)
  }

  lemma {:induction false} LastSegmentDecides(segments: seq<Segment>, a: nat)
    requires forall i :: 0 <= i < |segments| ==> segments[i].base > 0
    ensures forall i :: 0 <= i < |segments| && LastCovering(segments, a, i) ==>
              BySegments(segments, a) == segments[i].base + (a - segments[i].ephyBase)
    ensures BySegments(segments, a) == 0 <==> forall i :: 0 <= i < |segments| ==> !LastCovering(segments, a, i)
    decreases |segments|
  {
    if segments != [] {
      var n := |segments| - 1;
      if Covers(segments[n], a) {
        assert LastCovering(segments, a, n);
      } else {
        LastSegmentDecides(segments[..n], a);
        forall i | 0 <= i < n ensures LastCovering(segments, a, i) <==> LastCovering(segments[..n], a, i) {
          LastOfFewer(segments, a, i);
        }
      }
    }
  }

  lemma LastOfFewer(segments: seq<Segment>, a: nat, i: nat)
    requires i < |segments| - 1 && !Covers(segments[|segments| - 1], a)
    ensures LastCovering(segments, a, i) <==> LastCovering(segments[..|segments| - 1], a, i)
  {
    var fewer := segments[..|segments| - 1];
    if LastCovering(fewer, a, i) {
      forall j | i < j < |segments|
        ensures !(segments[j].ephyBase <= a < segments[j].ephyBase + segments[j].size)
      {
        if j < |fewer| { assert fewer[j] == segments[j]; }
      }
    }
  }

  /** The translation finds the byte, and nothing else is where the byte is. */
  lemma TranslationExact(k: Control, row: nat, col: nat, a: nat, host: nat)
    requires Valid(k) && InGroup(k, row, col)
    ensures Located(k, row, col, a, host) <==> host == Translate(k, row, col, a)
  {
    LastSegmentDecides(k.segments, a);
    assert a / MEGABYTE / COORDS % COORDS == a / 0x400_0000 % 64;
  }

  /** An Epiphany address, used by core (row, col), as a host address. */
  method EpiphanyToHost(k: Control, row: nat, col: nat, a: nat) returns (result: nat)
    requires Valid(k) && InGroup(k, row, col)
    ensures result == Translate(k, row, col, a) && Located(k, row, col, a, result)
  {
    TranslationExact(k, row, col, a, Translate(k, row, col, a));
    result := NULL;
    if a != NULL {
      if a / MEGABYTE == 0 {
        result := k.bases[row][col] + a;
      } else {
        var i := 0;
        while i < |k.segments|
          invariant 0 <= i <= |k.segments|
          invariant result == BySegments(k.segments[..i], a)
        {
          var seg := k.segments[i];
          if a >= seg.ephyBase && a < seg.ephyBase + seg.size {
            result := seg.base + (a - seg.ephyBase);
          }
          assert k.segments[..i + 1][..i] == k.segments[..i];
          i := i + 1;
        }
        assert k.segments[..i] == k.segments;
        if result == NULL {
          var r, c := RowOf(k, a), ColOf(k, a);
          if InGroup(k, r, c) {
            result := k.bases[r][c] + a % MEGABYTE;
          }
        }
      }
    }
  }

  lemma {:induction false} ExternalExactly(segments: seq<Segment>, a: nat)
    requires forall i :: 0 <= i < |segments| ==> segments[i].base > 0
    ensures BySegments(segments, a) != NULL <==> exists i :: 0 <= i < |segments| && Covers(segments[i], a)
    decreases |segments|
  {
    if segments != [] {
      var n := |segments| - 1;
      ExternalExactly(segments[..n], a);
      if i :| 0 <= i < |segments| && Covers(segments[i], a) && i < n {
        assert Covers(segments[..n][i], a);
      }
    }
  }

  /** The result is null exactly for null, and for addresses of other cores outside the workgroup that
      are in no external segment. */
  lemma NullExactly(k: Control, row: nat, col: nat, a: nat)
    requires Valid(k) && InGroup(k, row, col)
    ensures Translate(k, row, col, a) == NULL <==>
            a == NULL || (a >= MEGABYTE && !External(k, a) && !InGroup(k, RowOf(k, a), ColOf(k, a)))
  {
    ExternalExactly(k.segments, a);
  }

  // ----- the same memory by its local and its global address

  /** The coreid bits of a core, as each task computes them when it starts. */
  function CoreBits(k: Control, r: nat, c: nat): nat {
    CoreId(k, r, c) * MEGABYTE
  }

  lemma FieldsOf(k: Control, r: nat, c: nat, a: nat)
    requires Valid(k) && InGroup(k, r, c) && a < MEGABYTE
    ensures var g := CoreBits(k, r, c) + a;
            g % MEGABYTE == a && g / MEGABYTE == CoreId(k, r, c) && RowOf(k, g) == r && ColOf(k, g) == c
              && g < 0x1_0000_0000
  {
    var g, id := CoreBits(k, r, c) + a, CoreId(k, r, c);
    assert id % COORDS == k.col + c && id / COORDS == k.row + r;
    assert g / MEGABYTE == id && g % MEGABYTE == a;
    assert (k.row + r) % COORDS == k.row + r;
  }

  /** Making an address global twice is making it global once; the result keeps its place in memory. */
  lemma GlobaliseTwice(k: Control, r: nat, c: nat, r': nat, c': nat, a: nat)
    requires Valid(k) && InGroup(k, r, c) && InGroup(k, r', c') && CoreId(k, r, c) != 0
    ensures H.Globalise(CoreBits(k, r', c'), H.Globalise(CoreBits(k, r, c), a)) == H.Globalise(CoreBits(k, r, c), a)
    ensures H.Globalise(CoreBits(k, r, c), a) % MEGABYTE == a % MEGABYTE
  {
    if a < MEGABYTE { FieldsOf(k, r, c, a); }
  }

  /** A local address seen from its own core, and its global form seen from any core of the
      workgroup, are the same host address: always, when the coreid is not zero and the global form
      lies in no external segment. */
  lemma AliasCoherence(k: Control, r: nat, c: nat, r': nat, c': nat, a: nat)
    requires Valid(k) && InGroup(k, r, c) && InGroup(k, r', c') && 0 < a < MEGABYTE
    requires CoreId(k, r, c) != 0 && !External(k, H.Globalise(CoreBits(k, r, c), a))
    ensures Translate(k, r', c', H.Globalise(CoreBits(k, r, c), a)) == Translate(k, r, c, a)
  {
    FieldsOf(k, r, c, a);
    ExternalExactly(k.segments, CoreBits(k, r, c) + a);
  }

  /** Different cores are mapped at different host addresses. */
  ghost predicate DistinctBases(k: Control)
    requires Valid(k)
  {
    forall r, c, r', c' :: InGroup(k, r, c) && InGroup(k, r', c') && (r != r' || c != c') ==>
      k.bases[r][c] != k.bases[r'][c']
  }

  /** When the two forms agree, in every case. The core with coreid zero has no global addresses: what
      it publishes is taken by every other core for an address of its own. And a global form that lies
      in an external segment is taken for external memory. */
  lemma AliasExactly(k: Control, r: nat, c: nat, r': nat, c': nat, a: nat)
    requires Valid(k) && InGroup(k, r, c) && InGroup(k, r', c') && 0 < a < MEGABYTE && DistinctBases(k)
    ensures var g := H.Globalise(CoreBits(k, r, c), a);
            Translate(k, r', c', g) == Translate(k, r, c, a) <==>
            if CoreId(k, r, c) == 0 then r' == r && c' == c
            else External(k, g) ==> BySegments(k.segments, g) == k.bases[r][c] + a
  {
    FieldsOf(k, r, c, a);
    ExternalExactly(k.segments, CoreBits(k, r, c) + a);
  }
}
