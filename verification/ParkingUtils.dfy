/** The billing and space-pool helpers: billable minutes between two
    instants, the hourly fee, the hours/minutes split used for display,
    and the construction of the fixed pool of spaces. */
module ParkingUtils {
  import opened JsLib
  import opened ParkingTypes

  const MS_PER_MINUTE: int := 60000
  const MINUTES_PER_HOUR: int := 60
  const MS_PER_HOUR: int := 3600000

  function Max(a: int, b: int): int { if a >= b then a else b }

  // ------------------------------------------------------------ arithmetic

  /** Math.ceil(a / d) for a positive divisor: the least q with a <= q * d. */
  function CeilDiv(a: int, d: int): (q: int)
    requires d > 0
    ensures (q - 1) * d < a <= q * d
  {
    var e := -a;
    assert e == d * (e / d) + e % d;
    -(e / d)
  }

  lemma MulMonotone(x: int, y: int, d: int)
    requires d > 0 && x <= y
    ensures x * d <= y * d
  {
    assert (y - x) * d >= 0;
  }

  /** The bounds in CeilDiv's contract determine the quotient. */
  lemma CeilDivUnique(a: int, d: int, k: int)
    requires d > 0
    requires (k - 1) * d < a <= k * d
    ensures CeilDiv(a, d) == k
  {
    var q := CeilDiv(a, d);
    if q < k {
      MulMonotone(q, k - 1, d);
    } else if q > k {
      MulMonotone(k, q - 1, d);
    }
  }

  lemma CeilDivMonotone(a: int, b: int, d: int)
    requires d > 0 && a <= b
    ensures CeilDiv(a, d) <= CeilDiv(b, d)
  {
    var p, q := CeilDiv(a, d), CeilDiv(b, d);
    if p > q {
      MulMonotone(q, p - 1, d);
    }
  }

  /** Rounding up twice is rounding up once by the product of the divisors. */
  lemma CeilDivNested(a: int, b: int, c: int)
    requires b > 0 && c > 0
    ensures CeilDiv(CeilDiv(a, b), c) == CeilDiv(a, b * c)
  {
    var q := CeilDiv(a, b);
    var big := CeilDiv(a, b * c);
    assert big * (b * c) == (big * c) * b;
    assert (big - 1) * (b * c) == ((big - 1) * c) * b;
    if q > big * c {
      MulMonotone(big * c, q - 1, b);
    }
    if q <= (big - 1) * c {
      MulMonotone(q, (big - 1) * c, b);
    }
    CeilDivUnique(q, c, big);
  }

  // -------------------------------------------------------------- duration

  /** Billable minutes between two instants (milliseconds): the elapsed
      time rounded up to whole minutes, and never less than one. */
  function CalcDuration(entry: int, exit: int): (minutes: int)
    ensures minutes >= 1
  {
    Max(1, CeilDiv(exit - entry, MS_PER_MINUTE))
  }

  /** Up to one minute after entry, and whenever exit does not follow
      entry, one minute is billed. */
  lemma CalcDurationMinimum(entry: int, exit: int)
    requires exit - entry <= MS_PER_MINUTE
    ensures CalcDuration(entry, exit) == 1
  {
    CeilDivMonotone(exit - entry, MS_PER_MINUTE, MS_PER_MINUTE);
    CeilDivUnique(MS_PER_MINUTE, MS_PER_MINUTE, 1);
  }

  /** The duration is k minutes exactly when the elapsed time lies in
      ((k-1) minutes, k minutes], or for k = 1 anywhere up to one minute:
      a partial minute rounds up, and k whole minutes give k. */
  lemma CalcDurationExact(entry: int, exit: int, k: int)
    requires k >= 1
    ensures CalcDuration(entry, exit) == k <==>
      if k == 1 then exit - entry <= MS_PER_MINUTE
      else (k - 1) * MS_PER_MINUTE < exit - entry <= k * MS_PER_MINUTE
  {
    var g := exit - entry;
    var q := CeilDiv(g, MS_PER_MINUTE);
    if g <= MS_PER_MINUTE {
      CalcDurationMinimum(entry, exit);
    } else {
      CeilDivUnique(MS_PER_MINUTE, MS_PER_MINUTE, 1);
      CeilDivMonotone(MS_PER_MINUTE, g, MS_PER_MINUTE);
      if (k - 1) * MS_PER_MINUTE < g <= k * MS_PER_MINUTE {
        CeilDivUnique(g, MS_PER_MINUTE, k);
      }
    }
  }

  /** A later exit never bills fewer minutes. */
  lemma CalcDurationMonotone(entry: int, exit1: int, exit2: int)
    requires exit1 <= exit2
    ensures CalcDuration(entry, exit1) <= CalcDuration(entry, exit2)
  {
    CeilDivMonotone(exit1 - entry, exit2 - entry, MS_PER_MINUTE);
  }

  // ------------------------------------------------------------------- fee

  /** The per-vehicle-type multiplier the fee is charged at. */
  datatype FeeRates = FeeRates(car: nat, motorcycle: nat, truck: nat)
  {
    function For(t: VehicleType): nat
    {
      match t
      case Car => car
      case Motorcycle => motorcycle
      case Truck => truck
    }
  }

  /** The fee: every started hour is charged at the vehicle type's rate. */
  function CalcFee(minutes: int, vtype: VehicleType, rates: FeeRates): (fee: int)
  {
    CeilDiv(minutes, MINUTES_PER_HOUR) * rates.For(vtype)
  }

  /** A stay of more than k-1 and at most k hours costs k rates; for a
      positive rate also the other way round. */
  lemma CalcFeeBands(minutes: int, vtype: VehicleType, rates: FeeRates, k: int)
    ensures (k - 1) * 60 < minutes <= k * 60 ==> CalcFee(minutes, vtype, rates) == k * rates.For(vtype)
    ensures rates.For(vtype) > 0 && CalcFee(minutes, vtype, rates) == k * rates.For(vtype)
      ==> (k - 1) * 60 < minutes <= k * 60
  {
    var q := CeilDiv(minutes, MINUTES_PER_HOUR);
    var r := rates.For(vtype);
    if (k - 1) * 60 < minutes <= k * 60 {
      CeilDivUnique(minutes, MINUTES_PER_HOUR, k);
    }
    if r > 0 && q * r == k * r {
      if q < k {
        MulMonotone(q + 1, k, r);
      } else if q > k {
        MulMonotone(k + 1, q, r);
      }
    }
  }

  /** The first hour costs one rate, minute 61 starts the second hour. */
  lemma CalcFeeFirstHours(vtype: VehicleType, rates: FeeRates)
    ensures forall m :: 1 <= m <= 60 ==> CalcFee(m, vtype, rates) == rates.For(vtype)
    ensures CalcFee(61, vtype, rates) == 2 * rates.For(vtype)
  {
    forall m | 1 <= m <= 60
      ensures CalcFee(m, vtype, rates) == rates.For(vtype)
    {
      CalcFeeBands(m, vtype, rates, 1);
    }
    CalcFeeBands(61, vtype, rates, 2);
  }

  /** The grace period of the configuration plays no part in the fee:
      1 h 05 min, which the settings screen says is billed as one hour
      under a 5-minute grace period, costs two hourly rates under every
      configuration, whatever its grace period. */
  lemma CalcFeeIgnoresGracePeriod(vtype: VehicleType, config: ParkingConfig)
    requires config.rates.car.hour >= 0 && config.rates.motorcycle.hour >= 0
    requires config.rates.truck.hour >= 0
    ensures CalcFee(65, vtype, HourlyRates(config)) == 2 * config.rates.For(vtype).hour
  {
    CalcFeeBands(65, vtype, HourlyRates(config), 2);
  }

  /** Staying longer never costs less. */
  lemma CalcFeeMonotone(m1: int, m2: int, vtype: VehicleType, rates: FeeRates)
    requires m1 <= m2
    ensures CalcFee(m1, vtype, rates) <= CalcFee(m2, vtype, rates)
  {
    CeilDivMonotone(m1, m2, MINUTES_PER_HOUR);
    if rates.For(vtype) > 0 {
      MulMonotone(CeilDiv(m1, MINUTES_PER_HOUR), CeilDiv(m2, MINUTES_PER_HOUR), rates.For(vtype));
    }
  }

  lemma MulMod(q: int, r: int)
    requires r > 0
    ensures (q * r) % r == 0
  {
    var x := q * r;
    var d, m := x / r, x % r;
    assert x == r * d + m;
    assert r * (q - d) == m;
    if q - d >= 1 {
      MulMonotone(1, q - d, r);
    } else if q - d <= -1 {
      MulMonotone(q - d, -1, r);
    }
  }

  /** The fee is always a whole number of rates. */
  lemma CalcFeeMultipleOfRate(minutes: int, vtype: VehicleType, rates: FeeRates)
    requires rates.For(vtype) > 0
    ensures CalcFee(minutes, vtype, rates) % rates.For(vtype) == 0
  {
    MulMod(CeilDiv(minutes, MINUTES_PER_HOUR), rates.For(vtype));
  }

  /** Any stay of at least a minute costs at least one rate. */
  lemma CalcFeeAtLeastOneRate(minutes: int, vtype: VehicleType, rates: FeeRates)
    requires minutes >= 1
    ensures CalcFee(minutes, vtype, rates) >= rates.For(vtype)
  {
    var q := CeilDiv(minutes, MINUTES_PER_HOUR);
    CeilDivMonotone(1, minutes, MINUTES_PER_HOUR);
    CeilDivUnique(1, MINUTES_PER_HOUR, 1);
    if rates.For(vtype) > 0 {
      MulMonotone(1, q, rates.For(vtype));
    }
  }

  /** The fee charged at exit is one rate per started hour of the stay,
      and one rate when the clock did not advance. */
  lemma ExitFee(entry: int, exit: int, vtype: VehicleType, rates: FeeRates)
    ensures CalcFee(CalcDuration(entry, exit), vtype, rates)
      == Max(1, CeilDiv(exit - entry, MS_PER_HOUR)) * rates.For(vtype)
  {
    var g := exit - entry;
    CeilDivNested(g, MS_PER_MINUTE, MINUTES_PER_HOUR);
    CeilDivUnique(1, MINUTES_PER_HOUR, 1);
    if CeilDiv(g, MS_PER_MINUTE) < 1 {
      CeilDivMonotone(CeilDiv(g, MS_PER_MINUTE), 0, MINUTES_PER_HOUR);
      CeilDivUnique(0, MINUTES_PER_HOUR, 0);
    }
  }

  // ------------------------------------------------------ fee as written

  /** A JavaScript number, as far as the fee needs one: an integer or NaN. */
  datatype JsNumber = Finite(value: int) | NaN

  /** The operands the fee multiplies: a number, or a rate table, which
      is a plain object. */
  datatype JsValue = Num(n: JsNumber) | Table(table: RateTable)

  /** ToNumber: a number is itself; a plain object converts through its
      string form "[object Object]", which is not numeric, to NaN. */
  function ToNumber(v: JsValue): JsNumber
  {
    match v
    case Num(n) => n
    case Table(_) => NaN
  }

  /** The `*` operator: both operands are converted to numbers, and NaN
      on either side gives NaN. */
  function JsMul(a: JsValue, b: JsValue): (r: JsNumber)
    ensures r.NaN? <==> ToNumber(a).NaN? || ToNumber(b).NaN?
    ensures r.Finite? ==> r.value == ToNumber(a).value * ToNumber(b).value
  {
    var x, y := ToNumber(a), ToNumber(b);
    if x.NaN? || y.NaN? then NaN else Finite(x.value * y.value)
  }

  /** The fee as the source writes it: the multiplier `config.rates[type]`
      is the vehicle type's whole rate table, not one of its rates. */
  function CalcFeeAsWritten(minutes: int, vtype: VehicleType, config: ParkingConfig): JsNumber
  {
    JsMul(Num(Finite(CeilDiv(minutes, MINUTES_PER_HOUR))), Table(config.rates.For(vtype)))
  }

  /** Whatever the stay and the configuration, the fee as written is NaN. */
  lemma CalcFeeAsWrittenIsNaN(minutes: int, vtype: VehicleType, config: ParkingConfig)
    ensures CalcFeeAsWritten(minutes, vtype, config) == NaN
  {
    assert ToNumber(Table(config.rates.For(vtype))) == NaN;
  }

  /** The multiplier the fee means: each vehicle type's hourly rate. */
  function HourlyRates(config: ParkingConfig): (r: FeeRates)
    requires config.rates.car.hour >= 0 && config.rates.motorcycle.hour >= 0
    requires config.rates.truck.hour >= 0
    ensures forall t: VehicleType :: r.For(t) == config.rates.For(t).hour
  {
    FeeRates(config.rates.car.hour, config.rates.motorcycle.hour, config.rates.truck.hour)
  }

  /** Under the default configuration the corrected fee is a number: a
      first hour costs the hourly rate, and a car parked 2 h 05 min pays
      three hours at 5000. */
  lemma DefaultHourlyFee()
    ensures forall t: VehicleType, m :: 1 <= m <= 60 ==>
      CalcFee(m, t, HourlyRates(DEFAULT_CONFIG)) == DEFAULT_CONFIG.rates.For(t).hour
    ensures CalcFee(125, Car, HourlyRates(DEFAULT_CONFIG)) == 15000
  {
    var rates := HourlyRates(DEFAULT_CONFIG);
    forall t: VehicleType
      ensures forall m :: 1 <= m <= 60 ==> CalcFee(m, t, rates) == DEFAULT_CONFIG.rates.For(t).hour
    {
      CalcFeeFirstHours(t, rates);
    }
    CalcFeeBands(125, Car, rates, 3);
  }

  /** Multiplying the started hours by the hourly rate, the product the
      source means, is a number, and it is the fee `CalcFee` charges. */
  lemma HourlyProductIsFee(minutes: int, vtype: VehicleType, config: ParkingConfig)
    requires config.rates.car.hour >= 0 && config.rates.motorcycle.hour >= 0
    requires config.rates.truck.hour >= 0
    ensures JsMul(Num(Finite(CeilDiv(minutes, MINUTES_PER_HOUR))), Num(Finite(config.rates.For(vtype).hour)))
      == Finite(CalcFee(minutes, vtype, HourlyRates(config)))
  {
  }

  // -------------------------------------------------------------- display

  /** The two shapes of the duration text: "<m> min" and "<h>h <m>min". */
  datatype DurationText = MinutesOnly(minutes: int) | HoursAndMinutes(hours: int, minutes: int)
  {
    function Hours(): int { if MinutesOnly? then 0 else hours }
  }

  /** Splits minutes into whole hours (rounded down) and the remainder
      (with the sign of the input); the hours are left out when zero. */
  function FormatDuration(minutes: int): (d: DurationText)
  {
    var h := minutes / 60;
    var m := JsRem(minutes, 60);
    if h == 0 then MinutesOnly(m) else HoursAndMinutes(h, m)
  }

  /** For a non-negative duration the parts recompose it, the remainder
      is under an hour, and the hours are shown exactly from 60 minutes on. */
  lemma FormatDurationSplit(minutes: int)
    requires minutes >= 0
    ensures var d := FormatDuration(minutes);
      && d.Hours() * 60 + d.minutes == minutes
      && 0 <= d.minutes < 60
      && (d.HoursAndMinutes? <==> minutes >= 60)
  {
  }

  // ------------------------------------------------------------ space pool

  function TypeName(t: VehicleType): string
  {
    match t
    case Car => "car"
    case Motorcycle => "motorcycle"
    case Truck => "truck"
  }

  function LabelPrefix(t: VehicleType): char
  {
    match t
    case Car => 'C'
    case Motorcycle => 'M'
    case Truck => 'T'
  }

  /** The id of the i-th space of a type: "<type>-<i>". */
  function SpaceId(t: VehicleType, i: nat): string
  {
    TypeName(t) + "-" + Dec(i)
  }

  /** The label of the i-th space of a type: the prefix letter followed
      by i padded with zeros to two digits. */
  function SpaceLabel(t: VehicleType, i: nat): string
  {
    [LabelPrefix(t)] + PadStart(Dec(i), 2, '0')
  }

  function NewSpace(t: VehicleType, i: nat): ParkingSpace
  {
    ParkingSpace(SpaceId(t, i), SpaceLabel(t, i), t, Free, None)
  }

  /** Spaces 1..n of one type, in ascending order. */
  function Group(t: VehicleType, n: int): (g: seq<ParkingSpace>)
    ensures |g| == Max(0, n)
  {
    seq(Max(0, n), k requires 0 <= k => NewSpace(t, k + 1))
  }

  /** One more space at the end of a group. */
  lemma GroupSnoc(t: VehicleType, n: nat)
    ensures Group(t, n + 1) == Group(t, n) + [NewSpace(t, n + 1)]
  {
    var a, b := Group(t, n + 1), Group(t, n) + [NewSpace(t, n + 1)];
    forall k | 0 <= k < n + 1 ensures a[k] == b[k] {
    }
  }

  /** The groups of the given types, one after the other. */
  function Groups(counts: SpaceCounts, types: seq<VehicleType>): seq<ParkingSpace>
  {
    if types == [] then []
    else Groups(counts, types[..|types| - 1]) + Group(types[|types| - 1], counts.For(types[|types| - 1]))
  }

  /** One more group at the end: the step `InitSpaces` takes per type. */
  lemma GroupsSnoc(counts: SpaceCounts, types: seq<VehicleType>, t: VehicleType)
    ensures Groups(counts, types + [t]) == Groups(counts, types) + Group(t, counts.For(t))
  {
    assert (types + [t])[..|types|] == types;
  }

  const POOL_ORDER: seq<VehicleType> := [Car, Motorcycle, Truck]

  /** The pool the configuration's space counts call for. */
  function SpacePool(counts: SpaceCounts): seq<ParkingSpace>
  {
    Groups(counts, POOL_ORDER)
  }

  /** The body of the per-type callback: push spaces 1..n of one type
      onto the list built so far. */
  method PushSpaces(spaces: seq<ParkingSpace>, vtype: VehicleType, n: int) returns (r: seq<ParkingSpace>)
    ensures r == spaces + Group(vtype, n)
  {
    r := spaces;
    var i := 1;
    while i <= n
      invariant 1 <= i <= Max(0, n) + 1
      invariant r == spaces + Group(vtype, i - 1)
    {
      GroupSnoc(vtype, i - 1);
      r := r + [NewSpace(vtype, i)];
      i := i + 1;
    }
  }

  /** Builds the pool as the source does: for each type in turn, push
      its spaces onto a growing list. */
  method InitSpaces(config: ParkingConfig) returns (spaces: seq<ParkingSpace>)
    ensures spaces == SpacePool(config.totalSpaces)
  {
    spaces := [];
    var types := POOL_ORDER;
    for t := 0 to |types|
      invariant spaces == Groups(config.totalSpaces, types[..t])
    {
      var vtype := types[t];
      spaces := PushSpaces(spaces, vtype, config.totalSpaces.For(vtype));
      assert types[..t + 1] == types[..t] + [vtype];
      GroupsSnoc(config.totalSpaces, types[..t], vtype);
    }
    assert types[..|types|] == types;
  }

  /** The pool is the car group, then the motorcycle group, then the truck group. */
  lemma SpacePoolGroups(counts: SpaceCounts)
    ensures SpacePool(counts)
      == Group(Car, counts.car) + Group(Motorcycle, counts.motorcycle) + Group(Truck, counts.truck)
  {
    var gc, gm, gt := Group(Car, counts.car), Group(Motorcycle, counts.motorcycle), Group(Truck, counts.truck);
    assert POOL_ORDER[..2] == [Car, Motorcycle];
    assert Groups(counts, POOL_ORDER) == Groups(counts, [Car, Motorcycle]) + gt;
    assert [Car, Motorcycle][..1] == [Car];
    assert Groups(counts, [Car, Motorcycle]) == Groups(counts, [Car]) + gm;
    assert [Car][..0] == [];
    assert Groups(counts, [Car]) == gc;
  }

  /** The type and number of the space at position k of the pool: the
      car group comes first, then the motorcycles, then the trucks. */
  function PoolSlot(counts: SpaceCounts, k: nat): (VehicleType, nat)
  {
    var nc, nm := Max(0, counts.car), Max(0, counts.motorcycle);
    if k < nc then (Car, k + 1)
    else if k < nc + nm then (Motorcycle, k - nc + 1)
    else (Truck, k - nc - nm + 1)
  }

  /** The k-th space of the pool, read off the group it falls in. */
  lemma PoolAtGroup(counts: SpaceCounts, k: nat)
    requires k < |SpacePool(counts)|
    ensures var nc, nm := Max(0, counts.car), Max(0, counts.motorcycle);
      && nc + nm + Max(0, counts.truck) == |SpacePool(counts)|
      && SpacePool(counts)[k] ==
        if k < nc then Group(Car, counts.car)[k]
        else if k < nc + nm then Group(Motorcycle, counts.motorcycle)[k - nc]
        else Group(Truck, counts.truck)[k - nc - nm]
  {
    SpacePoolGroups(counts);
  }

  /** The k-th space of the pool is the new space of its slot. */
  lemma PoolAt(counts: SpaceCounts, k: nat)
    requires k < |SpacePool(counts)|
    ensures SpacePool(counts)[k] == NewSpace(PoolSlot(counts, k).0, PoolSlot(counts, k).1)
  {
    PoolAtGroup(counts, k);
  }

  /** The pool holds car, motorcycle and truck spaces in that order, each
      group numbered 1..n ascending; its length is the sum of the counts. */
  lemma SpacePoolLayout(counts: SpaceCounts)
    ensures |SpacePool(counts)| == Max(0, counts.car) + Max(0, counts.motorcycle) + Max(0, counts.truck)
    ensures forall k: nat :: k < |SpacePool(counts)| ==>
      SpacePool(counts)[k] == NewSpace(PoolSlot(counts, k).0, PoolSlot(counts, k).1)
  {
    SpacePoolGroups(counts);
    forall k: nat | k < |SpacePool(counts)|
      ensures SpacePool(counts)[k] == NewSpace(PoolSlot(counts, k).0, PoolSlot(counts, k).1)
    {
      PoolAt(counts, k);
    }
  }

  /** Every pooled space is free and holds no vehicle. */
  lemma SpacePoolAllFree(counts: SpaceCounts)
    ensures forall k :: 0 <= k < |SpacePool(counts)| ==>
      SpacePool(counts)[k].status == Free && SpacePool(counts)[k].vehicleId == None
  {
    SpacePoolLayout(counts);
  }

  /** Different (type, number) pairs get different ids. */
  lemma SpaceIdInjective(t1: VehicleType, i1: nat, t2: VehicleType, i2: nat)
    ensures SpaceId(t1, i1) == SpaceId(t2, i2) ==> t1 == t2 && i1 == i2
  {
    var s1, s2 := SpaceId(t1, i1), SpaceId(t2, i2);
    if s1 == s2 {
      assert s1[0] == TypeName(t1)[0] && s2[0] == TypeName(t2)[0];
      assert t1 == t2;
      var p := |TypeName(t1)| + 1;
      assert s1[p..] == Dec(i1);
      assert s2[p..] == Dec(i2);
      DecInjective(i1, i2);
    }
  }

  /** A label is the type's prefix letter then the number with at least
      two digits: a leading zero below 10, the plain digits from 10 on. */
  lemma SpaceLabelShape(t: VehicleType, i: nat)
    ensures SpaceLabel(t, i)[0] == LabelPrefix(t)
    ensures i < 10 ==> SpaceLabel(t, i) == [LabelPrefix(t), '0', DigitChar(i)]
    ensures i >= 10 ==> SpaceLabel(t, i) == [LabelPrefix(t)] + Dec(i)
  {
    DecShape(i);
    if i < 10 {
      assert Dec(i) == [DigitChar(i)];
      assert PadStart(Dec(i), 2, '0') == ['0', DigitChar(i)];
    }
  }

  /** Zero-padding to two digits keeps positive numbers apart. */
  lemma PaddedDecInjective(a: nat, b: nat)
    requires a >= 1 && b >= 1
    ensures PadStart(Dec(a), 2, '0') == PadStart(Dec(b), 2, '0') ==> a == b
  {
    var pa, pb := PadStart(Dec(a), 2, '0'), PadStart(Dec(b), 2, '0');
    DecShape(a);
    DecShape(b);
    assert a < 10 ==> pa == ['0'] + Dec(a);
    assert b < 10 ==> pb == ['0'] + Dec(b);
    assert (pa[0] == '0') == (a < 10);
    assert (pb[0] == '0') == (b < 10);
    if pa == pb {
      if a < 10 {
        assert Dec(a) == pa[1..] && Dec(b) == pb[1..];
      }
      DecInjective(a, b);
    }
  }

  /** Spaces numbered from 1 get different labels. */
  lemma SpaceLabelInjective(t1: VehicleType, i1: nat, t2: VehicleType, i2: nat)
    requires i1 >= 1 && i2 >= 1
    ensures SpaceLabel(t1, i1) == SpaceLabel(t2, i2) ==> t1 == t2 && i1 == i2
  {
    var l1, l2 := SpaceLabel(t1, i1), SpaceLabel(t2, i2);
    if l1 == l2 {
      assert l1[0] == LabelPrefix(t1) && l2[0] == LabelPrefix(t2);
      assert l1[1..] == PadStart(Dec(i1), 2, '0');
      assert l2[1..] == PadStart(Dec(i2), 2, '0');
      PaddedDecInjective(i1, i2);
    }
  }

  /** No two spaces of the pool share an id or a label. */
  lemma SpacePoolDistinct(counts: SpaceCounts)
    ensures var pool := SpacePool(counts);
      forall j, k :: 0 <= j < k < |pool| ==> pool[j].id != pool[k].id && pool[j].labelText != pool[k].labelText
  {
    var pool := SpacePool(counts);
    SpacePoolLayout(counts);
    forall j, k | 0 <= j < k < |pool|
      ensures pool[j].id != pool[k].id && pool[j].labelText != pool[k].labelText
    {
      var (tj, ij) := PoolSlot(counts, j);
      var (tk, ik) := PoolSlot(counts, k);
      assert pool[j] == NewSpace(tj, ij);
      assert pool[k] == NewSpace(tk, ik);
      assert ij >= 1 && ik >= 1;
      assert (tj, ij) != (tk, ik);
      SpaceIdInjective(tj, ij, tk, ik);
      SpaceLabelInjective(tj, ij, tk, ik);
    }
  }

  /** The default configuration yields 35 spaces. */
  lemma DefaultPoolSize()
    ensures |SpacePool(DEFAULT_CONFIG.totalSpaces)| == 35
  {
    SpacePoolLayout(DEFAULT_CONFIG.totalSpaces);
  }
}
