/**
 Planning the EFI system partition on a GPT disk: at the end of the disk, in the gap behind the OS partition, or in
 space taken from the OS partition.
 */
module GptLayout {

  const MB: int := 0x100000

  /** An entry of the partition array; offsets and lengths in bytes. */
  datatype Part = Part(start: int, length: int, number: int)

  function End(p: Part): int {
    p.start + p.length
  }

  /** (x + 0xFFFFF) & ~0xFFFFF and x & ~0xFFFFF. */
  function AlignUp(x: int): int {
    AlignDown(x + MB - 1)
  }

  function AlignDown(x: int): int {
    x - x % MB
  }

  // ---- layouts ------------------------------------------------------------------------------------

  ghost predicate Sorted(ps: seq<Part>) {
    forall i, j | 0 <= i < j < |ps| :: End(ps[i]) <= ps[j].start
  }

  predicate Apart(p: Part, q: Part) {
    End(p) <= q.start || End(q) <= p.start
  }

  ghost predicate Disjoint(ps: seq<Part>) {
    forall i, j | 0 <= i < j < |ps| :: Apart(ps[i], ps[j])
  }

  /** Entries as a GPT holds them: no negative offset and at least one sector. */
  ghost predicate NonEmpty(ps: seq<Part>) {
    forall i | 0 <= i < |ps| :: ps[i].start >= 0 && ps[i].length > 0
  }

  // ---- the arithmetic of the shrink path ----------------------------------------------------------

  lemma AlignDownBounds(x: int)
    ensures AlignDown(x) % MB == 0 && AlignDown(x) <= x < AlignDown(x) + MB
  {
  }

  lemma AlignUpBounds(x: int)
    ensures AlignUp(x) % MB == 0 && x <= AlignUp(x) < x + MB
  {
    AlignDownBounds(x + MB - 1);
  }

  /** The next boundary is the lowest one. */
  lemma AlignUpLeast(x: int, a: int)
    requires a % MB == 0 && x <= a
    ensures AlignUp(x) <= a
  {
    AlignUpBounds(x);
    assert (a - AlignUp(x)) % MB == 0;
  }

  lemma AlignUpAligned(x: int)
    requires x % MB == 0
    ensures AlignUp(x) == x
  {
    AlignUpLeast(x, x);
    AlignUpBounds(x);
  }

  /** The boundaries are those of 1048576 bytes; the lowest one at or behind x, and the highest one not behind it. */
  lemma Boundaries(x: int, a: int)
    requires a % 1048576 == 0
    ensures AlignUp(x) % 1048576 == 0 && x <= AlignUp(x) && (x <= a ==> AlignUp(x) <= a)
    ensures AlignDown(x) % 1048576 == 0 && AlignDown(x) <= x && (a <= x ==> a <= AlignDown(x))
  {
    AlignUpBounds(x);
    AlignDownBounds(x);
    if x <= a {
      AlignUpLeast(x, a);
    }
    if a <= x {
      assert (a - AlignDown(x)) % MB == 0;
    }
  }

  /** Where the ESP starts when it ends before next: both ends are moved down to a boundary. */
  function EspStart(next: int, esp: int): int {
    AlignDown(AlignDown(next) - esp)
  }

  /** How far the file system is shrunk. */
  function NeedSpace(esp: int, gap: int): int {
    var need := esp - gap + 2 * MB;
    if need < esp then esp + 2 * MB else need
  }

  /** What the file system gives up: the ESP and 2 MB, less a gap of up to 2 MB; a larger gap is not counted. */
  lemma NeedSpaceIs(esp: int, gap: int)
    requires gap >= 0
    ensures NeedSpace(esp, gap) == esp + 2097152 - (if gap <= 2097152 then gap else 0)
  {
  }

  /** Whether the gap behind the OS partition takes the ESP as it is. */
  predicate GapFits(osEnd: int, next: int, esp: int) {
    next - osEnd >= esp && AlignUp(osEnd) + esp <= next
  }

  /** What aligning twice can cost. */
  lemma AlignmentLoss(next: int, esp: int)
    ensures EspStart(next, esp) % MB == 0
    ensures next - esp - (2 * MB - 2) <= EspStart(next, esp) <= next - esp
  {
    AlignDownBounds(next);
    AlignDownBounds(AlignDown(next) - esp);
  }

  /**
   When the gap does not do, the plan takes the ESP from the OS partition, strictly, ends before the next partition,
   and never cuts into the shrunk file system: none of the checks behind the plan can fail.
   */
  lemma ShrinkPlanSound(osStart: int, osEnd: int, next: int, esp: int)
    requires osEnd <= next && !GapFits(osEnd, next, esp)
    ensures EspStart(next, esp) < osEnd
    ensures EspStart(next, esp) + esp <= next
    ensures EspStart(next, esp) - osStart >= (osEnd - osStart) - NeedSpace(esp, next - osEnd)
    ensures AlignUp(EspStart(next, esp)) == EspStart(next, esp)
  {
    var s := EspStart(next, esp);
    AlignmentLoss(next, esp);
    AlignUpAligned(s);
    if osEnd <= s {
      AlignUpLeast(osEnd, s);
    }
  }

  /** A file system that can give the needed space away leaves a partition of positive length behind. */
  lemma ShrinkLeavesRoom(osStart: int, osEnd: int, next: int, esp: int)
    requires osEnd <= next && !GapFits(osEnd, next, esp) && NeedSpace(esp, next - osEnd) < osEnd - osStart
    ensures EspStart(next, esp) > osStart
  {
    ShrinkPlanSound(osStart, osEnd, next, esp);
  }

  /** The slack is needed: a loss of all but two bytes of the 2 MB does happen. */
  lemma SlackIsTight(k: int, m: int)
    ensures var next, esp := MB * k + MB - 1, MB * m + 1;
            EspStart(next, esp) == next - esp - (2 * MB - 2)
  {
    var next, esp := MB * k + MB - 1, MB * m + 1;
    assert next % MB == MB - 1;
    assert AlignDown(next) - esp == MB * (k - m - 1) + (MB - 1);
    assert (AlignDown(next) - esp) % MB == MB - 1;
  }

  // ---- the scans ----------------------------------------------------------------------------------

  /** The highest end of the entries in use, but at least floor. */
  function UsedEnd(ps: seq<Part>, floor: int): (e: int)
    ensures e >= floor
  {
    if ps == [] then floor else
      var e, p := UsedEnd(ps[..|ps| - 1], floor), ps[|ps| - 1];
      if p.length > 0 && End(p) > e then End(p) else e
  }

  /** The lowest start at or behind osEnd of the entries other than number os, but at most limit. */
  function NextStart(ps: seq<Part>, os: int, osEnd: int, limit: int): (n: int)
    ensures n <= limit
  {
    if ps == [] then limit else
      var n, p := NextStart(ps[..|ps| - 1], os, osEnd, limit), ps[|ps| - 1];
      if |ps| - 1 != os && osEnd <= p.start < n then p.start else n
  }

  lemma {:induction false} UsedEndBounds(ps: seq<Part>, floor: int, i: nat)
    requires i < |ps| && ps[i].length > 0
    ensures End(ps[i]) <= UsedEnd(ps, floor)
  {
    if i < |ps| - 1 {
      UsedEndBounds(ps[..|ps| - 1], floor, i);
    }
  }

  /** In a sorted layout the last entry reaches furthest. */
  lemma {:induction false} UsedEndIsLast(ps: seq<Part>, floor: int)
    requires Sorted(ps) && NonEmpty(ps) && ps != [] && floor <= End(ps[|ps| - 1])
    ensures UsedEnd(ps, floor) == End(ps[|ps| - 1])
  {
    UsedEndWithin(ps[..|ps| - 1], floor, End(ps[|ps| - 1]));
  }

  lemma {:induction false} UsedEndWithin(ps: seq<Part>, floor: int, b: int)
    requires floor <= b && forall i | 0 <= i < |ps| :: End(ps[i]) <= b
    ensures UsedEnd(ps, floor) <= b
  {
    if ps != [] {
      UsedEndWithin(ps[..|ps| - 1], floor, b);
    }
  }

  lemma {:induction false} NextStartBounds(ps: seq<Part>, os: int, osEnd: int, limit: int, i: nat)
    requires i < |ps| && i != os && osEnd <= ps[i].start
    ensures NextStart(ps, os, osEnd, limit) <= ps[i].start
  {
    if i < |ps| - 1 {
      NextStartBounds(ps[..|ps| - 1], os, osEnd, limit, i);
    }
  }

  lemma {:induction false} NextStartBehind(ps: seq<Part>, os: int, osEnd: int, limit: int)
    requires osEnd <= limit
    ensures osEnd <= NextStart(ps, os, osEnd, limit)
  {
    if ps != [] {
      NextStartBehind(ps[..|ps| - 1], os, osEnd, limit);
    }
  }

  /** The limit stands or an entry begins there. */
  lemma {:induction false} NextStartAttained(ps: seq<Part>, os: int, osEnd: int, limit: int)
    ensures var n := NextStart(ps, os, osEnd, limit);
            n == limit || exists i | 0 <= i < |ps| :: i != os && osEnd <= ps[i].start == n
  {
    if ps != [] {
      var before := ps[..|ps| - 1];
      NextStartAttained(before, os, osEnd, limit);
      var n := NextStart(before, os, osEnd, limit);
      if n != limit && n == NextStart(ps, os, osEnd, limit) {
        var i :| 0 <= i < |before| && i != os && osEnd <= before[i].start == n;
        assert ps[i].start == n;
      }
    }
  }

  /** With nothing behind the OS partition the limit stands. */
  lemma {:induction false} NextStartOfLast(ps: seq<Part>, os: int, osEnd: int, limit: int)
    requires forall i | 0 <= i < |ps| && i != os :: ps[i].start < osEnd
    ensures NextStart(ps, os, osEnd, limit) == limit
  {
    if ps != [] {
      NextStartOfLast(ps[..|ps| - 1], os, osEnd, limit);
    }
  }

  // ---- the three new layouts ----------------------------------------------------------------------

  function Inserted(ps: seq<Part>, i: nat, p: Part): seq<Part>
    requires i <= |ps|
  {
    ps[..i] + [p] + ps[i..]
  }

  /** A partition behind all others may be appended. */
  lemma AppendSorted(ps: seq<Part>, p: Part)
    requires Sorted(ps) && forall i | 0 <= i < |ps| :: End(ps[i]) <= p.start
    ensures Sorted(ps + [p]) && Disjoint(ps + [p])
  {
  }

  /** The space between the OS partition and whatever follows it. */
  ghost predicate Behind(ps: seq<Part>, os: nat, next: int) {
    && os < |ps| && End(ps[os]) <= next
    && forall i | os < i < |ps| :: next <= ps[i].start
  }

  /** A partition put into that space but appended to the array: disjoint, and sorted only if nothing follows. */
  lemma AppendInGap(ps: seq<Part>, os: nat, next: int, p: Part)
    requires Sorted(ps) && NonEmpty(ps) && Behind(ps, os, next)
    requires p.length > 0 && End(ps[os]) <= p.start && End(p) <= next
    ensures Disjoint(ps + [p])
    ensures Sorted(ps + [p]) <==> os == |ps| - 1
  {
    var qs := ps + [p];
    forall i | 0 <= i < |ps| ensures Apart(ps[i], p) {
      if i < os {
        assert End(ps[i]) <= ps[os].start;
      }
    }
    if os < |ps| - 1 {
      assert qs[os + 1] == ps[os + 1] && qs[|ps|] == p;
      assert !(End(qs[os + 1]) <= qs[|ps|].start);
    } else {
      forall i | 0 <= i < |ps| ensures End(ps[i]) <= p.start {
        if i < os {
          assert End(ps[i]) <= ps[os].start;
        }
      }
    }
  }

  /** Shrinking the OS partition and inserting the new one where it ends keeps the layout sorted. */
  lemma InsertAfterShrink(ps: seq<Part>, os: nat, next: int, shrunk: Part, p: Part)
    requires Sorted(ps) && NonEmpty(ps) && Behind(ps, os, next)
    requires shrunk.start == ps[os].start && 0 < shrunk.length
    requires p.length > 0 && p.start == End(shrunk) && End(p) <= next
    ensures Sorted(Inserted(ps[os := shrunk], os + 1, p))
  {
    var qs := Inserted(ps[os := shrunk], os + 1, p);
    forall i, j | 0 <= i < j < |qs| ensures End(qs[i]) <= qs[j].start {
      var a := if i <= os then i else i - 1;
      var b := if j <= os then j else j - 1;
      assert i < os ==> qs[i] == ps[i];
      assert i > os + 1 ==> qs[i] == ps[a];
      assert j < os ==> qs[j] == ps[j];
      assert j > os + 1 ==> qs[j] == ps[b];
      if i < os && j >= os {
        assert End(ps[i]) <= ps[os].start;
      }
    }
  }

  lemma SortedIsDisjoint(ps: seq<Part>)
    requires Sorted(ps)
    ensures Disjoint(ps)
  {
  }

  /** The lowest boundary behind the header and all entries in use. */
  ghost predicate IsTail(ps: seq<Part>, start: int, sector: int) {
    && BehindAll(ps, start, sector)
    && forall a | BehindAll(ps, a, sector) :: start <= a
  }

  ghost predicate BehindAll(ps: seq<Part>, a: int, sector: int) {
    a % 1048576 == 0 && 34 * sector <= a && forall i | 0 <= i < |ps| && ps[i].length > 0 :: End(ps[i]) <= a
  }

  lemma TailIs(ps: seq<Part>, sector: int)
    ensures IsTail(ps, AlignUp(UsedEnd(ps, 34 * sector)), sector)
  {
    var e := UsedEnd(ps, 34 * sector);
    AlignUpBounds(e);
    forall i | 0 <= i < |ps| && ps[i].length > 0 ensures End(ps[i]) <= e {
      UsedEndBounds(ps, 34 * sector, i);
    }
    forall a | BehindAll(ps, a, sector) ensures AlignUp(e) <= a {
      UsedEndOfUsed(ps, 34 * sector, a);
      AlignUpLeast(e, a);
    }
  }

  lemma {:induction false} UsedEndOfUsed(ps: seq<Part>, floor: int, b: int)
    requires floor <= b && forall i | 0 <= i < |ps| && ps[i].length > 0 :: End(ps[i]) <= b
    ensures UsedEnd(ps, floor) <= b
  {
    if ps != [] {
      UsedEndOfUsed(ps[..|ps| - 1], floor, b);
    }
  }

  // ---- the code -----------------------------------------------------------------------------------

  datatype Status = Ok | NoFreeSpace | NoDevice | PartTooSmall | ShrinkFailed

  datatype Path = AtEnd | InGap | Shrunk

  /** A disk with its partition array of at most 128 entries. */
  class Drive {
    const size: int
    const sector: int
    const entries: array<Part>
    var count: nat

    ghost predicate Valid()
      reads this
    {
      entries.Length == 128 && count <= 128
    }

    ghost function Parts(): seq<Part>
      requires Valid()
      reads this, entries
    {
      entries[..count]
    }

    /** The end of the usable space: the backup GPT takes the last 33 sectors. */
    function UsableEnd(): int {
      size - 33 * sector
    }

    function Floor(): int {
      34 * sector
    }

    constructor (size: int, sector: int)
      ensures Valid() && this.size == size && this.sector == sector && Parts() == [] && fresh(entries)
    {
      this.size, this.sector, count := size, sector, 0;
      entries := new Part[128](_ => Part(0, 0, 0));
    }

    method LastEnd() returns (e: int)
      requires Valid()
      ensures e == UsedEnd(Parts(), Floor())
    {
      e := Floor();
      for i := 0 to count
        invariant e == UsedEnd(entries[..i], Floor())
      {
        assert entries[..i + 1][..i] == entries[..i];
        var p := entries[i];
        if p.length > 0 {
          var partEnd := p.start + p.length;
          if partEnd > e {
            e := partEnd;
          }
        }
      }
    }

    /** dc_find_free_space. */
    method FindFreeSpace(required: int) returns (ok: bool, start: int, avail: int)
      requires Valid()
      ensures start == AlignUp(UsedEnd(Parts(), Floor()))
      ensures IsTail(Parts(), start, sector)
      ensures ok <==> start + required + 33 * sector <= size
      ensures start + avail + 33 * sector == size
    {
      var e := LastEnd();
      TailIs(Parts(), sector);
      start := AlignUp(e);
      avail := UsableEnd() - start;
      ok := start + required <= UsableEnd();
    }

    /** dc_gpt_create_partition: the new entry is appended to the array, wherever its offset lies. */
    method CreatePartition(length: int, at: int) returns (r: Status)
      requires Valid()
      modifies this, entries
      ensures Valid()
      ensures var start := if at != 0 then at else AlignUp(UsedEnd(old(Parts()), Floor()));
              && (at == 0 ==> IsTail(old(Parts()), start, sector))
              && (r == Ok <==> start + length + 33 * sector <= size && old(count) < 128)
              && (r == Ok ==> Parts() == old(Parts()) + [Part(start, length, 0)])
      ensures r != Ok ==> r == NoFreeSpace && Parts() == old(Parts())
    {
      var start := at;
      TailIs(Parts(), sector);
      if at == 0 {
        var e := LastEnd();
        start := AlignUp(e);
      }
      if start + length > UsableEnd() || count >= 128 {
        return NoFreeSpace;
      }
      entries[count] := Part(start, length, 0);
      count := count + 1;
      return Ok;
    }

    /** The first entry with a partition number. */
    method FindNumber(number: int) returns (k: int)
      requires Valid()
      ensures k == FirstNumbered(Parts(), number)
    {
      for i := 0 to count
        invariant forall j | 0 <= j < i :: entries[j].number != number
      {
        if entries[i].number == number {
          FirstNumberedIs(entries[..count], number, i);
          return i;
        }
      }
      FirstNumberedIs(entries[..count], number, count);
      return -1;
    }

    method NextBehind(os: int, osEnd: int) returns (next: int)
      requires Valid()
      ensures next == NextStart(Parts(), os, osEnd, UsableEnd())
      ensures next + 33 * sector <= size
      ensures forall i | 0 <= i < count && i != os && osEnd <= entries[i].start :: next <= entries[i].start
      ensures || next + 33 * sector == size
              || exists i | 0 <= i < count :: i != os && osEnd <= entries[i].start == next
    {
      next := UsableEnd();
      for i := 0 to count
        invariant next == NextStart(entries[..i], os, osEnd, UsableEnd())
      {
        assert entries[..i + 1][..i] == entries[..i];
        if i != os {
          var start := entries[i].start;
          if start >= osEnd && start < next {
            next := start;
          }
        }
      }
      NextStartAttained(Parts(), os, osEnd, UsableEnd());
      forall i | 0 <= i < count && i != os && osEnd <= entries[i].start ensures next <= entries[i].start {
        NextStartBounds(Parts(), os, osEnd, UsableEnd(), i);
      }
    }

    /** The first entry that starts behind an offset. */
    method Position(start: int) returns (k: nat)
      requires Valid()
      ensures k <= count && forall i | 0 <= i < k :: entries[i].start <= start
      ensures k < count ==> entries[k].start > start
    {
      for i := 0 to count
        invariant forall j | 0 <= j < i :: entries[j].start <= start
      {
        if entries[i].start > start {
          return i;
        }
      }
      return count;
    }

    /** The memmove that makes room at index k. */
    method MakeRoom(k: nat)
      requires Valid() && count < 128 && k <= count
      modifies entries
      ensures forall m | 0 <= m < k :: entries[m] == old(entries[m])
      ensures forall m | k < m <= count :: entries[m] == old(entries[m - 1])
    {
      var j := count;
      while j > k
        invariant k <= j <= count
        invariant forall m | 0 <= m < j :: entries[m] == old(entries[m])
        invariant forall m | j < m <= count :: entries[m] == old(entries[m - 1])
      {
        entries[j] := entries[j - 1];
        j := j - 1;
      }
    }

    /** The new entry goes before the first one that starts behind it. */
    method InsertSorted(p: Part) returns (k: nat)
      requires Valid() && count < 128
      modifies this, entries
      ensures Valid() && k <= old(count) && Parts() == Inserted(old(Parts()), k, p)
      ensures forall i | 0 <= i < k :: old(entries[i].start) <= p.start
      ensures k < old(count) ==> old(entries[k].start) > p.start
    {
      k := Position(p.start);
      MakeRoom(k);
      entries[k] := p;
      count := count + 1;
      assert Parts() == Inserted(old(Parts()), k, p);
    }

    /** The re-check against all partitions. */
    method OverlapsAny(os: int, start: int, esp: int) returns (found: bool)
      requires Valid()
      ensures found <==> exists i | 0 <= i < count && i != os ::
                entries[i].length != 0 && start < End(entries[i]) && start + esp > entries[i].start
    {
      for i := 0 to count
        invariant forall j | 0 <= j < i && j != os ::
                    !(entries[j].length != 0 && start < End(entries[j]) && start + esp > entries[j].start)
      {
        if i != os && entries[i].length != 0 {
          if start < End(entries[i]) && start + esp > entries[i].start {
            return true;
          }
        }
      }
      return false;
    }

    /** Step B of the shrink path: the entry for the ESP goes where the shrunk OS partition now ends. */
    method InsertBehind(os: nat, esp: int, ghost ps: seq<Part>, ghost next: int, ghost newLength: int)
      returns (start: int)
      requires Valid() && count < 128 && os < count && esp > 0
      requires Sorted(ps) && NonEmpty(ps) && Behind(ps, os, next) && newLength > 0
      requires Parts() == ps[os := ps[os].(length := newLength)]
      requires (ps[os].start + newLength) % MB == 0 && ps[os].start + newLength + esp <= next
      modifies this, entries
      ensures Valid() && start == ps[os].start + newLength
      ensures Parts() == ShrunkLayout(ps, os, start, esp) && Sorted(Parts())
    {
      ghost var mid := Parts();
      assert entries[os] == mid[os];
      var actualEnd := entries[os].start + entries[os].length;
      AlignUpAligned(actualEnd);
      start := AlignUp(actualEnd);
      assert actualEnd <= start && start + esp <= next;
      ghost var p := Part(start, esp, 0);
      var k := InsertSorted(Part(start, esp, 0));
      InsertPosition(ps, os, next, mid, p, k);
      InsertAfterShrink(ps, os, next, mid[os], p);
    }

    /**
     The shrink path from the plan on, with the file system already shrunk.  Every check behind the test for a positive
     length is stated as an assertion: it cannot fail.
     */
    method ShrinkAndInsert(os: nat, next: int, esp: int) returns (r: Status, start: int)
      requires Valid() && Plannable(Parts(), os, UsableEnd()) && esp > 0
      requires next == NextStart(Parts(), os, End(Parts()[os]), UsableEnd()) && !GapFits(End(Parts()[os]), next, esp)
      modifies this, entries
      ensures Valid() && start == EspStart(next, esp) && (r == Ok || r == PartTooSmall)
      ensures r == Ok <==> start > old(Parts())[os].start
      ensures r == Ok ==> Parts() == ShrunkLayout(old(Parts()), os, start, esp) && Sorted(Parts())
      ensures r != Ok ==> Parts() == old(Parts())
    {
      ghost var ps := Parts();
      assert ps[os] == entries[os];
      NextIsBehind(ps, os, UsableEnd());
      var osStart, oldLength := entries[os].start, entries[os].length;
      var need := NeedSpace(esp, next - (osStart + oldLength));
      start := EspStart(next, esp);
      AlignmentLoss(next, esp);
      ShrinkPlanSound(osStart, osStart + oldLength, next, esp);
      var newLength := start - osStart;
      if newLength <= 0 {
        return PartTooSmall, start;
      }
      assert newLength >= oldLength - need && start + esp <= next;
      var found := OverlapsAny(os, start, esp);
      assert !found by {
        NothingInTheWay(ps, os, next, start, esp);
      }
      Shrink(os, oldLength - newLength);
      start := InsertBehind(os, esp, ps, next, newLength);
      return Ok, start;
    }

    /**
     dc_create_dcs_esp.  osNum is the number of the OS partition, negative if there is none; fsShrinks says whether
     the file system could be shrunk.
     */
    method CreateEsp(esp: int, osNum: int, fsShrinks: bool) returns (r: Status, start: int, path: Path)
      requires Valid() && Plannable(Parts(), FirstNumbered(Parts(), osNum), UsableEnd()) && esp > 0
      modifies this, entries
      ensures Valid() && Outcome(old(Parts()), osNum, esp, fsShrinks, Floor(), UsableEnd(), r, start, path, Parts())
      ensures r == Ok ==> start % 1048576 == 0 && start + esp + 33 * sector <= size
      ensures r == Ok && path == AtEnd ==> IsTail(old(Parts()), start, sector)
    {
      ghost var ps := Parts();
      start := 0;
      var free, tail, avail := FindFreeSpace(esp);
      if free {
        r := CreatePartition(esp, 0);
        path, start := AtEnd, tail;
        AlignUpBounds(UsedEnd(ps, Floor()));
        TailAppends(ps, Floor(), Part(start, esp, 0));
        assert Creates(ps, osNum, esp, fsShrinks, Floor(), UsableEnd(), AtEnd);
        return;
      }
      r, start, path := BehindOs(esp, osNum, fsShrinks);
    }

    /** The part of dc_create_dcs_esp for a disk without room at its end. */
    method BehindOs(esp: int, osNum: int, fsShrinks: bool) returns (r: Status, start: int, path: Path)
      requires Valid() && Plannable(Parts(), FirstNumbered(Parts(), osNum), UsableEnd()) && esp > 0
      requires !TailFits(Parts(), Floor(), UsableEnd(), esp)
      modifies this, entries
      ensures Valid() && Outcome(old(Parts()), osNum, esp, fsShrinks, Floor(), UsableEnd(), r, start, path, Parts())
    {
      ghost var ps := Parts();
      start, path := 0, Shrunk;
      if osNum < 0 {
        return NoDevice, start, path;
      }
      var os := FindNumber(osNum);
      if os < 0 {
        return NoDevice, start, path;
      }
      var osEnd := entries[os].start + entries[os].length;
      assert osEnd == End(ps[os]);
      var next := NextBehind(os, osEnd);
      NextIsBehind(ps, os, UsableEnd());
      if GapFits(osEnd, next, esp) {
        AlignUpBounds(osEnd);
        start, path := AlignUp(osEnd), InGap;
        r := CreatePartition(esp, start);
        AppendInGap(ps, os, next, Part(start, esp, 0));
        assert Creates(ps, osNum, esp, fsShrinks, Floor(), UsableEnd(), InGap);
        return;
      }
      if !fsShrinks {
        return ShrinkFailed, start, path;
      }
      AlignmentLoss(next, esp);
      ShrinkPlanSound(ps[os].start, osEnd, next, esp);
      r, start := ShrinkAndInsert(os, next, esp);
      if r == Ok {
        SortedIsDisjoint(Parts());
        assert Creates(ps, osNum, esp, fsShrinks, Floor(), UsableEnd(), Shrunk);
      }
    }

    /** IOCTL_DISK_GROW_PARTITION with a negative amount. */
    method Shrink(os: nat, amount: int)
      requires Valid() && os < count
      modifies entries
      ensures Parts() == old(Parts())[os := old(Parts())[os].(length := old(Parts())[os].length - amount)]
    {
      entries[os] := entries[os].(length := entries[os].length - amount);
    }
  }

  // ---- what planning the ESP promises -------------------------------------------------------------

  /** A layout the planner is given: entries sorted and not empty, the OS partition inside the usable space. */
  ghost predicate Plannable(ps: seq<Part>, os: int, usable: int) {
    Sorted(ps) && NonEmpty(ps) && |ps| < 128 && -1 <= os < |ps| && (os >= 0 ==> End(ps[os]) <= usable)
  }

  /** When the disk's end takes the ESP. */
  ghost predicate TailFits(ps: seq<Part>, floor: int, usable: int, esp: int) {
    AlignUp(UsedEnd(ps, floor)) + esp <= usable
  }

  /** The next partition behind the OS partition bounds the space behind it. */
  lemma NextIsBehind(ps: seq<Part>, os: nat, usable: int)
    requires Plannable(ps, os, usable)
    ensures Behind(ps, os, NextStart(ps, os, End(ps[os]), usable))
  {
    NextStartBehind(ps, os, End(ps[os]), usable);
    forall i | os < i < |ps| ensures NextStart(ps, os, End(ps[os]), usable) <= ps[i].start {
      NextStartBounds(ps, os, End(ps[os]), usable, i);
    }
  }

  lemma TailAppends(ps: seq<Part>, floor: int, p: Part)
    requires Sorted(ps) && NonEmpty(ps) && p.start == AlignUp(UsedEnd(ps, floor))
    ensures Sorted(ps + [p]) && Disjoint(ps + [p])
  {
    AlignUpBounds(UsedEnd(ps, floor));
    forall i | 0 <= i < |ps| ensures End(ps[i]) <= p.start {
      UsedEndBounds(ps, floor, i);
    }
    AppendSorted(ps, p);
  }

  /** The new layout of the shrink path. */
  ghost function ShrunkLayout(ps: seq<Part>, os: nat, start: int, esp: int): seq<Part>
    requires os < |ps|
  {
    Inserted(ps[os := ps[os].(length := start - ps[os].start)], os + 1, Part(start, esp, 0))
  }

  /** The conditions under which an ESP can be created, and how. */
  ghost predicate Creates(ps: seq<Part>, osNum: int, esp: int, fsShrinks: bool, floor: int, usable: int, path: Path) {
    var os := FirstNumbered(ps, osNum);
    if TailFits(ps, floor, usable, esp) then path == AtEnd
    else
      && osNum >= 0 && os >= 0
      && var next := NextStart(ps, os, End(ps[os]), usable);
         if GapFits(End(ps[os]), next, esp) then path == InGap
         else path == Shrunk && fsShrinks && EspStart(next, esp) > ps[os].start
  }

  /** Which error a call gives. */
  ghost function EspStatus(ps: seq<Part>, osNum: int, esp: int, fsShrinks: bool, floor: int, usable: int): Status {
    var os := FirstNumbered(ps, osNum);
    if TailFits(ps, floor, usable, esp) then Ok
    else if osNum < 0 || os < 0 then NoDevice
    else
      var next := NextStart(ps, os, End(ps[os]), usable);
      if GapFits(End(ps[os]), next, esp) then Ok
      else if !fsShrinks then ShrinkFailed
      else if EspStart(next, esp) <= ps[os].start then PartTooSmall else Ok
  }

  /** What a call leaves behind. */
  ghost predicate Outcome(ps: seq<Part>, osNum: int, esp: int, fsShrinks: bool, floor: int, usable: int,
                          r: Status, start: int, path: Path, after: seq<Part>) {
    var os := FirstNumbered(ps, osNum);
    r == EspStatus(ps, osNum, esp, fsShrinks, floor, usable) &&
    if r != Ok then
      after == ps && forall p :: !Creates(ps, osNum, esp, fsShrinks, floor, usable, p)
    else
      && Creates(ps, osNum, esp, fsShrinks, floor, usable, path)
      && start % MB == 0 && start + esp <= usable && Disjoint(after)
      && match path
         case AtEnd =>
           start == AlignUp(UsedEnd(ps, floor)) && after == ps + [Part(start, esp, 0)] && Sorted(after)
         case InGap =>
           && os >= 0 && start == AlignUp(End(ps[os])) && after == ps + [Part(start, esp, 0)]
           && (Sorted(after) <==> os == |ps| - 1)
         case Shrunk =>
           && os >= 0 && start == EspStart(NextStart(ps, os, End(ps[os]), usable), esp)
           && after == ShrunkLayout(ps, os, start, esp) && Sorted(after)
           && ps[os].start < start < End(ps[os])
           && start >= End(ps[os]) - NeedSpace(esp, NextStart(ps, os, End(ps[os]), usable) - End(ps[os]))
  }

  /** No partition but the OS partition reaches into the space of the new one. */
  lemma NothingInTheWay(ps: seq<Part>, os: nat, next: int, start: int, esp: int)
    requires Sorted(ps) && NonEmpty(ps) && Behind(ps, os, next) && ps[os].start < start && start + esp <= next
    ensures forall i | 0 <= i < |ps| && i != os :: End(ps[i]) <= start || start + esp <= ps[i].start
  {
    forall i | 0 <= i < |ps| && i != os ensures End(ps[i]) <= start || start + esp <= ps[i].start {
      if i < os {
        assert End(ps[i]) <= ps[os].start;
      }
    }
  }

  lemma InsertPosition(ps: seq<Part>, os: nat, next: int, mid: seq<Part>, p: Part, k: nat)
    requires Sorted(ps) && NonEmpty(ps) && Behind(ps, os, next)
    requires ps[os].start < p.start && p.length > 0 && End(p) <= next
    requires |mid| == |ps| && k <= |mid| && forall i | 0 <= i < |ps| :: mid[i].start == ps[i].start
    requires (forall i | 0 <= i < k :: mid[i].start <= p.start) && (k < |mid| ==> mid[k].start > p.start)
    ensures k == os + 1
  {
    forall i | 0 <= i <= os ensures mid[i].start <= p.start {
      if i < os {
        assert End(ps[i]) <= ps[os].start;
      }
    }
    assert os + 1 < |mid| ==> next <= ps[os + 1].start == mid[os + 1].start;
  }

  /** If the end of the disk does not take the ESP, the gap behind a last OS partition does not either. */
  lemma GapNeedsFollower(ps: seq<Part>, floor: int, usable: int, esp: int)
    requires Plannable(ps, |ps| - 1, usable) && ps != [] && floor <= End(ps[|ps| - 1])
    requires !TailFits(ps, floor, usable, esp)
    ensures !GapFits(End(ps[|ps| - 1]), NextStart(ps, |ps| - 1, End(ps[|ps| - 1]), usable), esp)
  {
    UsedEndIsLast(ps, floor);
  }

  function FirstNumbered(ps: seq<Part>, number: int): (k: int)
    ensures -1 <= k < |ps| && (k >= 0 ==> ps[k].number == number)
  {
    if ps == [] then -1
    else if ps[0].number == number then 0
    else
      var k := FirstNumbered(ps[1..], number);
      if k < 0 then -1 else k + 1
  }

  lemma {:induction false} FirstNumberedIs(ps: seq<Part>, number: int, i: nat)
    requires i <= |ps| && forall j | 0 <= j < i :: ps[j].number != number
    requires i < |ps| ==> ps[i].number == number
    ensures FirstNumbered(ps, number) == if i < |ps| then i else -1
  {
    if i > 0 {
      FirstNumberedIs(ps[1..], number, i - 1);
    }
  }

  /**
   On a disk whose partitions lie behind the GPT header, a created ESP leaves the array sorted exactly when the end of
   the disk takes it or the gap behind the OS partition does not: the gap path is only taken when a partition follows
   the OS partition, and appends behind that.
   */
  lemma SortedUnlessInGap(ps: seq<Part>, osNum: int, esp: int, fsShrinks: bool, floor: int, usable: int,
                          start: int, path: Path, after: seq<Part>)
    requires Plannable(ps, FirstNumbered(ps, osNum), usable) && forall i | 0 <= i < |ps| :: floor <= ps[i].start
    requires Outcome(ps, osNum, esp, fsShrinks, floor, usable, Ok, start, path, after)
    ensures var os := FirstNumbered(ps, osNum);
            Sorted(after) <==>
              (|| TailFits(ps, floor, usable, esp)
               || (os >= 0 && !GapFits(End(ps[os]), NextStart(ps, os, End(ps[os]), usable), esp)))
  {
    var os := FirstNumbered(ps, osNum);
    if path == InGap && os == |ps| - 1 {
      GapNeedsFollower(ps, floor, usable, esp);
    }
  }

  /** Such a disk: the OS partition, 200 MB of free space, and a recovery partition at the end. */
  lemma AppendedOutOfOrder()
    ensures var ps := [Part(MB, 100 * MB, 1), Part(301 * MB, 99 * MB, 2)];
            var floor, usable := 34 * 512, 401 * MB - 33 * 512;
            && Plannable(ps, FirstNumbered(ps, 1), usable)
            && Outcome(ps, 1, 100 * MB, true, floor, usable, Ok, 101 * MB, InGap, ps + [Part(101 * MB, 100 * MB, 0)])
            && !Sorted(ps + [Part(101 * MB, 100 * MB, 0)])
  {
    var p, q, e := Part(MB, 100 * MB, 1), Part(301 * MB, 99 * MB, 2), Part(101 * MB, 100 * MB, 0);
    var ps, usable := [p, q], 401 * MB - 33 * 512;
    assert ps[..1] == [p] && [p][..0] == [];
    assert NextStart([p], 0, 101 * MB, usable) == usable;
    assert NextStart(ps, 0, 101 * MB, usable) == 301 * MB;
    assert UsedEnd([p], 34 * 512) == 101 * MB;
    assert UsedEnd(ps, 34 * 512) == 400 * MB;
    AppendInGap(ps, 0, 301 * MB, e);
  }
}
