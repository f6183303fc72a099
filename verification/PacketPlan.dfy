/**
  How many packets a file is cut into and how large each request is
  (the arithmetic at the start of FileDownloader::download). The code divides in floating
  point and takes the ceiling.
*/
module PacketPlan {
  import opened Bytes
  import opened Binary64

  const HASH_LENGTH: nat := 32
  const OVERHEAD: nat := 2 * HASH_LENGTH
  const TWO_32: nat := 0x1_0000_0000
  const TWO_64: nat := 0x1_0000_0000_0000_0000

  datatype Plan = Plan(count: nat, packetSize: nat) {
    /** The bytes of the file that one full packet carries. */
    function Payload(): int { packetSize - OVERHEAD }
  }

  function CeilDiv(a: nat, b: nat): (c: nat)
    requires b > 0
  {
    (a + b - 1) / b
  }

  /** `m_maxPacketSize - 64` in unsigned 64-bit arithmetic, which wraps below 64. */
  function Room(maxPacketSize: nat): (room: nat) {
    (maxPacketSize - OVERHEAD) % TWO_64
  }

  /**
    The plan as the code computes it, where the division delivers `quotient`. None where the
    cast to `unsigned` has no defined value. (A count of 0 is never delivered, see
    DeliveredIsAtLeastOne.)
  */
  function PlanFor(maxPacketSize: nat, fileSize: nat, quotient: real): (plan: Option<Plan>) {
    if fileSize <= Room(maxPacketSize) then
      Some(Plan(1, (fileSize + OVERHEAD) % TWO_64))
    else if Room(maxPacketSize) == 0 || !(1 <= Ceil(quotient) < TWO_32) then
      None
    else
      Some(Plan(Ceil(quotient), maxPacketSize))
  }

  /** The plan that exact arithmetic gives. */
  function ExactPlan(maxPacketSize: nat, fileSize: nat): (plan: Option<Plan>) {
    var room := Room(maxPacketSize);
    if fileSize <= room then
      Some(Plan(1, (fileSize + OVERHEAD) % TWO_64))
    else if room == 0 || CeilDiv(fileSize, room) >= TWO_32 then
      None
    else
      Some(Plan(CeilDiv(fileSize, room), maxPacketSize))
  }

  /** Both operands are converted to double and then divided: three roundings. */
  ghost predicate IsDivision(a: nat, b: nat, quotient: real) {
    exists x: real, y: real :: IsRoundedDivision(a, b, x, y, quotient)
  }

  ghost predicate IsRoundedDivision(a: nat, b: nat, x: real, y: real, quotient: real) {
    && IsNearestDouble(a as real, x)
    && IsNearestDouble(b as real, y)
    && y != 0.0
    && IsNearestDouble(x / y, quotient)
  }

  /** The division that plans a file of this size, if there is one, may deliver `quotient`. */
  ghost predicate Delivers(maxPacketSize: nat, fileSize: nat, quotient: real) {
    fileSize > Room(maxPacketSize) > 0 ==> IsDivision(fileSize, Room(maxPacketSize), quotient)
  }

  /** Every division that the code performs delivers something. */
  lemma SomethingIsDelivered(maxPacketSize: nat, fileSize: nat) returns (quotient: real)
    ensures Delivers(maxPacketSize, fileSize, quotient)
  {
    quotient := 0.0;
    var room := Room(maxPacketSize);
    if fileSize > room > 0 {
      var x := NearestExists(fileSize as real);
      var y := NearestExists(room as real);
      NearestAtLeastOne(room as real, y);
      quotient := NearestExists(x / y);
      assert IsRoundedDivision(fileSize, room, x, y, quotient);
    }
  }

  // ---------------------------------------------------------------- integer division

  lemma DivisionBounds(x: nat, b: nat)
    requires b > 0
    ensures x - b < (x / b) * b <= x
  {
    assert x == (x / b) * b + x % b;
  }

  lemma CeilDivBounds(a: nat, b: nat)
    requires b > 0
    ensures a <= CeilDiv(a, b) * b < a + b
  {
    DivisionBounds(a + b - 1, b);
  }

  lemma RangeFromBounds(a: nat, b: nat, c: nat)
    requires 0 < b < a <= c * b < a + b
    ensures 2 <= c <= a
  {
    if c < 2 {
      ProductOrderInt(c, 1, b);
    } else if c > a {
      ProductOrderInt(a + 1, c, b);
      DistributesInt(a, 1, b);
      ProductOrderInt(1, b, a);
    }
  }

  lemma CeilDivRange(a: nat, b: nat)
    requires 0 < b < a
    ensures 2 <= CeilDiv(a, b) <= a
  {
    CeilDivBounds(a, b);
    RangeFromBounds(a, b, CeilDiv(a, b));
  }

  /** The ceiling is the only count of pieces of size b that holds a with no piece to spare. */
  lemma CeilDivIsUnique(a: nat, b: nat, c: nat)
    requires b > 0 && (c - 1) * b < a <= c * b
    ensures c == CeilDiv(a, b)
  {
    var d := CeilDiv(a, b);
    CeilDivBounds(a, b);
    DistributesInt(c, 1, b);
    if d < c {
      ProductOrderInt(d, c - 1, b);
    } else if c < d {
      ProductOrderInt(c, d - 1, b);
      DistributesInt(d, 1, b);
    }
  }

  // ---------------------------------------------------------------- the floating-point count

  lemma BoundsFromProduct(q: real, n: real, a: real, b: real)
    requires b > 0.0 && q * b == a && n * b + 1.0 <= a <= (n + 1.0) * b
    ensures n < q <= n + 1.0 && (q - n) * b >= 1.0
  {
    Distributes(q, n, b);
    Cancel(n, q, b);
    CancelAtMost(q, n + 1.0, b);
  }

  lemma QuotientBounds(a: nat, b: nat, n: nat)
    requires b > 0 && n * b < a <= (n + 1) * b
    ensures n as real < a as real / b as real <= (n + 1) as real
    ensures (a as real / b as real - n as real) * b as real >= 1.0
  {
    DivideBack(a as real, b as real);
    RealProduct(n, b);
    RealProduct(n + 1, b);
    BoundsFromProduct(a as real / b as real, n as real, a as real, b as real);
  }

  lemma BelowTheQuotient(b: nat, n: nat)
    requires b >= 2 && n * b < TWO_53
    ensures n < TWO_53 - 1
  {
    ProductOrderInt(2, b, n);
  }

  lemma DivideByOne(x: real)
    ensures x / 1.0 == x
  {
  }

  /** The rounded quotient stays above the integer just below the exact one. */
  lemma CeilAbove(a: nat, b: nat, n: nat, q: real, r: real)
    requires 0 < b && 1 <= n < TWO_53 - 1 && n * b < a <= (n + 1) * b && a <= TWO_53
    requires q == a as real / b as real && IsNearestDouble(q, r)
    ensures Ceil(r) == n + 1
  {
    QuotientBounds(a, b, n);
    NearestWithinIntegers(q, r, n);
    var x := CloserDouble(a, b, n, q);
    assert Abs(r - q) <= Abs(x - q);
  }

  /** The ceiling of the rounded quotient is the integer ceiling of the exact one. */
  lemma CeilOfRoundedQuotient(a: nat, b: nat, r: real)
    requires 0 < b < a <= TWO_53
    requires IsNearestDouble(a as real / b as real, r)
    ensures Ceil(r) == CeilDiv(a, b)
  {
    CeilDivBounds(a, b);
    CeilDivRange(a, b);
    var n := CeilDiv(a, b) - 1;
    var q := a as real / b as real;
    if b == 1 {
      DivideByOne(a as real);
      IntegerIsDouble(a);
      NearestOfDouble(q, r);
    } else {
      DistributesInt(n + 1, 1, b);
      BelowTheQuotient(b, n);
      CeilAbove(a, b, n, q, r);
    }
  }

  lemma CountIsExact(a: nat, b: nat, quotient: real)
    requires 0 < b < a <= TWO_53 && IsDivision(a, b, quotient)
    ensures Ceil(quotient) == CeilDiv(a, b)
  {
    var x: real, y: real :| IsRoundedDivision(a, b, x, y, quotient);
    IntegerIsDouble(a);
    IntegerIsDouble(b);
    NearestOfDouble(a as real, x);
    NearestOfDouble(b as real, y);
    CeilOfRoundedQuotient(a, b, quotient);
  }

  /** Up to 2^53 the code's plan is the exact one, for every limit on the packet size. */
  lemma PlanIsExact(maxPacketSize: nat, fileSize: nat, quotient: real)
    requires fileSize <= TWO_53 && Delivers(maxPacketSize, fileSize, quotient)
    ensures PlanFor(maxPacketSize, fileSize, quotient) == ExactPlan(maxPacketSize, fileSize)
  {
    var room := Room(maxPacketSize);
    if 0 < room < fileSize {
      CountIsExact(fileSize, room, quotient);
      CeilDivRange(fileSize, room);
    }
  }

  lemma QuotientAtLeastOne(x: real, y: real)
    requires 1.0 <= y <= x
    ensures x / y >= 1.0
  {
    DivideBack(x, y);
    CancelAtMost(1.0, x / y, y);
  }

  /** A division that the code performs never rounds to a count of 0, whatever the size. */
  lemma DeliveredIsAtLeastOne(a: nat, b: nat, quotient: real)
    requires 0 < b < a && IsDivision(a, b, quotient)
    ensures Ceil(quotient) >= 1
  {
    var x: real, y: real :| IsRoundedDivision(a, b, x, y, quotient);
    NearestAtLeastOne(b as real, y);
    NearestIsMonotone(b as real, a as real, y, x);
    QuotientAtLeastOne(x, y);
    NearestAtLeastOne(x / y, quotient);
  }

  /** Every file of at most `limit` bytes is planned as in exact arithmetic, whatever the packet size. */
  ghost predicate CountsExactly(limit: nat) {
    forall maxPacketSize: nat, fileSize: nat, quotient: real |
      maxPacketSize < TWO_64 && fileSize <= limit && Delivers(maxPacketSize, fileSize, quotient) ::
      PlanFor(maxPacketSize, fileSize, quotient) == ExactPlan(maxPacketSize, fileSize)
  }

  /** One packet is planned for 2^53 + 1 bytes where two are needed. */
  lemma LargeSizeLosesAPacket()
    ensures Delivers(TWO_53 + OVERHEAD, TWO_53 + 1, 1.0)
    ensures PlanFor(TWO_53 + OVERHEAD, TWO_53 + 1, 1.0) == Some(Plan(1, TWO_53 + OVERHEAD))
    ensures ExactPlan(TWO_53 + OVERHEAD, TWO_53 + 1) == Some(Plan(2, TWO_53 + OVERHEAD))
  {
    FirstGapRoundsDown();
    IntegerIsDouble(TWO_53);
    IntegerIsDouble(1);
    var x := TWO_53 as real;
    assert x / x == 1.0;
    assert IsRoundedDivision(TWO_53 + 1, TWO_53, x, x, 1.0);
    CeilDivIsUnique(TWO_53 + 1, TWO_53, 2);
  }

  /** The code's count can be relied on exactly up to 2^53 bytes. */
  lemma CountsExactlyUpTo(limit: nat)
    ensures CountsExactly(limit) <==> limit <= TWO_53
  {
    if limit <= TWO_53 {
      forall maxPacketSize: nat, fileSize: nat, quotient: real |
        maxPacketSize < TWO_64 && fileSize <= limit && Delivers(maxPacketSize, fileSize, quotient)
        ensures PlanFor(maxPacketSize, fileSize, quotient) == ExactPlan(maxPacketSize, fileSize)
      {
        PlanIsExact(maxPacketSize, fileSize, quotient);
      }
    } else {
      LargeSizeLosesAPacket();
    }
  }

  // ---------------------------------------------------------------- the plan

  /** The arithmetic of the code; `quotient` is what the division delivers, if it comes to that. */
  method PlanPackets(maxPacketSize: nat, fileSize: nat, quotient: real) returns (plan: Option<Plan>)
    ensures plan == PlanFor(maxPacketSize, fileSize, quotient)
    ensures fileSize <= TWO_53 && Delivers(maxPacketSize, fileSize, quotient) ==>
              plan == ExactPlan(maxPacketSize, fileSize)
  {
    if fileSize <= Room(maxPacketSize) {
      plan := Some(Plan(1, (fileSize + OVERHEAD) % TWO_64));
    } else if Room(maxPacketSize) == 0 || !(1 <= Ceil(quotient) < TWO_32) {
      plan := None;
    } else {
      plan := Some(Plan(Ceil(quotient), maxPacketSize));
    }
    if fileSize <= TWO_53 && Delivers(maxPacketSize, fileSize, quotient) {
      PlanIsExact(maxPacketSize, fileSize, quotient);
    }
  }

  /** A request asks for more than its own overhead and no more than the limit. */
  ghost predicate RequestFits(maxPacketSize: nat, plan: Option<Plan>) {
    plan.Some? && OVERHEAD < plan.value.packetSize <= maxPacketSize
  }

  lemma FitsWithRoom(maxPacketSize: nat, fileSize: nat, quotient: real)
    requires OVERHEAD < maxPacketSize < TWO_64 && 0 < fileSize < TWO_64
    requires Delivers(maxPacketSize, fileSize, quotient)
    ensures RequestFits(maxPacketSize, PlanFor(maxPacketSize, fileSize, quotient))
            <==> fileSize <= maxPacketSize - OVERHEAD || Ceil(quotient) < TWO_32
  {
    var room := Room(maxPacketSize);
    assert room == maxPacketSize - OVERHEAD;
    if fileSize > room {
      DeliveredIsAtLeastOne(fileSize, room, quotient);
    }
  }

  lemma ExactCountFits(maxPacketSize: nat, fileSize: nat, quotient: real)
    requires OVERHEAD < maxPacketSize < TWO_64
    requires Delivers(maxPacketSize, fileSize, quotient)
    ensures 0 < fileSize <= TWO_53 ==>
              (CeilDiv(fileSize, maxPacketSize - OVERHEAD) < TWO_32
               <==> fileSize <= maxPacketSize - OVERHEAD || Ceil(quotient) < TWO_32)
  {
    var room := maxPacketSize - OVERHEAD;
    assert Room(maxPacketSize) == room;
    if 0 < fileSize <= room {
      CeilDivIsUnique(fileSize, room, 1);
    } else if room < fileSize <= TWO_53 {
      CountIsExact(fileSize, room, quotient);
    }
  }

  /**
    The service rejects only a limit of 0. Requests respect the limit exactly when it leaves
    room for payload and the computed packet count fits the 32-bit counter.
  */
  lemma FitsExactlyWhen(maxPacketSize: nat, fileSize: nat, quotient: real)
    requires maxPacketSize < TWO_64 && 0 < fileSize < TWO_64
    requires Delivers(maxPacketSize, fileSize, quotient)
    ensures RequestFits(maxPacketSize, PlanFor(maxPacketSize, fileSize, quotient)) <==>
              && maxPacketSize > OVERHEAD
              && (fileSize <= maxPacketSize - OVERHEAD || Ceil(quotient) < TWO_32)
    ensures fileSize <= TWO_53 ==>
              (RequestFits(maxPacketSize, PlanFor(maxPacketSize, fileSize, quotient)) <==>
                 && maxPacketSize > OVERHEAD
                 && CeilDiv(fileSize, maxPacketSize - OVERHEAD) < TWO_32)
  {
    var room := Room(maxPacketSize);
    if maxPacketSize > OVERHEAD {
      FitsWithRoom(maxPacketSize, fileSize, quotient);
      ExactCountFits(maxPacketSize, fileSize, quotient);
    } else if maxPacketSize < OVERHEAD {
      assert room == TWO_64 - OVERHEAD + maxPacketSize;
    }
  }

  /**
    What becomes of limits that the service lets through: below 64 the subtraction wraps, and
    any file is asked for whole, beyond the limit; at 64 no file can be planned at all.
  */
  lemma TinyLimitIsExceeded(maxPacketSize: nat, fileSize: nat, quotient: real)
    requires maxPacketSize <= 64 && 0 < fileSize < TWO_64 - 64
    ensures maxPacketSize < 64 ==>
              && PlanFor(maxPacketSize, fileSize, quotient) == Some(Plan(1, fileSize + 64))
              && (fileSize + 64 > maxPacketSize)
    ensures maxPacketSize == 64 ==> PlanFor(maxPacketSize, fileSize, quotient) == None
  {
    if maxPacketSize < 64 {
      assert Room(maxPacketSize) == TWO_64 - 64 + maxPacketSize;
    }
  }

  // ---------------------------------------------------------------- geometry

  /** The planned packets hold the file, and one packet fewer would not. */
  ghost predicate Covers(plan: Plan, fileSize: nat) {
    plan.Payload() > 0 && (plan.count - 1) * plan.Payload() < fileSize <= plan.count * plan.Payload()
  }

  lemma ExactPlanCovers(maxPacketSize: nat, fileSize: nat)
    requires OVERHEAD < maxPacketSize < TWO_64 && 0 < fileSize < TWO_64
    ensures ExactPlan(maxPacketSize, fileSize).Some? ==> Covers(ExactPlan(maxPacketSize, fileSize).value, fileSize)
  {
    var room := Room(maxPacketSize);
    assert room == maxPacketSize - OVERHEAD;
    if fileSize > room {
      CeilDivBounds(fileSize, room);
      DistributesInt(CeilDiv(fileSize, room), 1, room);
    }
  }

  /** The code's plan covers the file if and only if it is the exact one, and up to 2^53 bytes it is. */
  lemma PlanCovers(maxPacketSize: nat, fileSize: nat, quotient: real, plan: Plan)
    requires OVERHEAD < maxPacketSize < TWO_64 && 0 < fileSize < TWO_64
    requires PlanFor(maxPacketSize, fileSize, quotient) == Some(plan)
    ensures Covers(plan, fileSize) <==> ExactPlan(maxPacketSize, fileSize) == Some(plan)
    ensures fileSize <= TWO_53 && Delivers(maxPacketSize, fileSize, quotient) ==> Covers(plan, fileSize)
  {
    var room := Room(maxPacketSize);
    assert room == maxPacketSize - OVERHEAD;
    ExactPlanCovers(maxPacketSize, fileSize);
    if fileSize > room && Covers(plan, fileSize) {
      CeilDivIsUnique(fileSize, room, plan.count);
    }
    if fileSize <= TWO_53 && Delivers(maxPacketSize, fileSize, quotient) {
      PlanIsExact(maxPacketSize, fileSize, quotient);
    }
  }

  function Start(plan: Plan, i: nat): (offset: int) {
    i * plan.Payload()
  }

  function End(plan: Plan, fileSize: nat, i: nat): (offset: int) {
    if (i + 1) * plan.Payload() <= fileSize then (i + 1) * plan.Payload() else fileSize
  }

  /** The packets' intervals, clipped to the file, leave no gap, do not overlap, and none is empty. */
  ghost predicate Tiles(plan: Plan, fileSize: nat)
    requires plan.count >= 1
  {
    && Start(plan, 0) == 0 && End(plan, fileSize, plan.count - 1) == fileSize
    && (forall i: nat | i < plan.count :: Start(plan, i) < End(plan, fileSize, i))
    && (forall i: nat | i + 1 < plan.count :: End(plan, fileSize, i) == Start(plan, i + 1))
  }

  lemma CoversTiles(plan: Plan, fileSize: nat)
    requires plan.count >= 1 && Covers(plan, fileSize)
    ensures Tiles(plan, fileSize)
  {
    var payload := plan.Payload();
    forall i: nat | i < plan.count
      ensures Start(plan, i) < End(plan, fileSize, i)
      ensures i + 1 < plan.count ==> End(plan, fileSize, i) == Start(plan, i + 1)
    {
      ProductOrderInt(i, plan.count - 1, payload);
      DistributesInt(i, 1, payload);
      if i + 1 < plan.count {
        ProductOrderInt(i + 1, plan.count - 1, payload);
      }
    }
  }

  lemma TilesCover(plan: Plan, fileSize: nat)
    requires plan.count >= 1 && plan.Payload() > 0 && Tiles(plan, fileSize)
    ensures Covers(plan, fileSize)
  {
    var last: nat := plan.count - 1;
    assert Start(plan, last) < End(plan, fileSize, last);
  }

  /** The requests of a plan tile the file if and only if the plan is the exact one. */
  lemma PacketsTileTheFile(maxPacketSize: nat, fileSize: nat, quotient: real, plan: Plan)
    requires OVERHEAD < maxPacketSize < TWO_64 && 0 < fileSize < TWO_64
    requires PlanFor(maxPacketSize, fileSize, quotient) == Some(plan)
    ensures Tiles(plan, fileSize) <==> ExactPlan(maxPacketSize, fileSize) == Some(plan)
    ensures fileSize <= TWO_53 && Delivers(maxPacketSize, fileSize, quotient) ==> Tiles(plan, fileSize)
  {
    PlanCovers(maxPacketSize, fileSize, quotient, plan);
    assert Room(maxPacketSize) == maxPacketSize - OVERHEAD;
    if Covers(plan, fileSize) {
      CoversTiles(plan, fileSize);
    }
    if Tiles(plan, fileSize) {
      TilesCover(plan, fileSize);
    }
  }
}
