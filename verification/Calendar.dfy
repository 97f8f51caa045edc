/** Timeframes and the calendar arithmetic of bar boundaries.
    A moment is a number of microseconds since the epoch (UTC), the resolution of the source's datetimes. */
module Calendar {
  import opened Division

  const US_PER_MINUTE: int := 60_000_000
  const MINUTES_PER_DAY: int := 1440
  const US_PER_DAY: int := 86_400_000_000

  datatype Timeframe = M1 | M5 | M15 | M30 | H1 | H4 | D1 {
    function Minutes(): (m: int)
      ensures 1 <= m <= MINUTES_PER_DAY && MINUTES_PER_DAY % m == 0
    {
      match this
      case M1 => 1
      case M5 => 5
      case M15 => 15
      case M30 => 30
      case H1 => 60
      case H4 => 240
      case D1 => 1440
    }

    /** The duration of one bar. */
    function Width(): (w: int)
      ensures w > 0
    {
      Minutes() * US_PER_MINUTE
    }
  }

  /** The minute a moment falls into, by its calendar fields; the bar-start cache is keyed by it. */
  datatype Minute = Minute(day: int, hour: int, minute: int)

  function MinuteOf(t: int): (m: Minute)
    ensures 0 <= m.hour < 24 && 0 <= m.minute < 60
  {
    var ofDay := t % US_PER_DAY;
    Minute(t / US_PER_DAY, ofDay / (60 * US_PER_MINUTE), ofDay / US_PER_MINUTE % 60)
  }

  /** `timestamp.replace(hour, minute, second=0, microsecond=0)` on the day of the given minute. */
  function Moment(m: Minute): int {
    m.day * US_PER_DAY + (m.hour * 60 + m.minute) * US_PER_MINUTE
  }

  /** The bar start as the renderer computes it from the hour and minute fields. */
  function BarStartOfMinute(m: Minute, tf: Timeframe): int {
    var minutes := tf.Minutes();
    var total := m.hour * 60 + m.minute;
    var barStartMinute := total / minutes * minutes;
    Moment(Minute(m.day, barStartMinute / 60, barStartMinute % 60))
  }

  function BarStart(t: int, tf: Timeframe): int {
    BarStartOfMinute(MinuteOf(t), tf)
  }

  predicate Contains(start: int, tf: Timeframe, t: int) {
    start <= t < start + tf.Width()
  }

  /** Pandas `resample` with its default origin: bins are counted from midnight of the first row's day. */
  function Midnight(t: int): int {
    t / US_PER_DAY * US_PER_DAY
  }

  function BinIndex(t: int, origin: int, tf: Timeframe): int {
    (t - origin) / tf.Width()
  }

  function BinLabel(k: int, origin: int, tf: Timeframe): int {
    origin + k * tf.Width()
  }

  // ---- bar boundaries ---------------------------------------------------------------------------

  lemma MinuteFields(t: int)
    ensures var m := MinuteOf(t);
            m.hour * 60 + m.minute == t % US_PER_DAY / US_PER_MINUTE
  {
  }

  /** The start of a bar of `m` minutes, over plain integers. */
  lemma FloorFromFields(d: int, total: int, m: int, perDay: int)
    requires m > 0 && perDay * m == MINUTES_PER_DAY
    ensures (d * perDay + total / m) * (m * US_PER_MINUTE)
         == d * US_PER_DAY + total / m * m * US_PER_MINUTE
  {
    assert (d * perDay + total / m) * m == d * (perDay * m) + total / m * m;
    var q := d * perDay + total / m;
    assert q * (m * US_PER_MINUTE) == q * m * US_PER_MINUTE;
  }

  /** The field arithmetic is the floor to a multiple of the width counted from the epoch. */
  lemma BarStartIsEpochFloor(t: int, tf: Timeframe)
    ensures BarStart(t, tf) == t / tf.Width() * tf.Width()
    ensures Contains(BarStart(t, tf), tf, t)
  {
    var m, d := tf.Minutes(), t / US_PER_DAY;
    var total := t % US_PER_DAY / US_PER_MINUTE;
    MinuteFields(t);
    DivBounds(total, m);
    var start := total / m * m;
    assert BarStart(t, tf) == d * US_PER_DAY + start * US_PER_MINUTE;
    FloorFromFields(d, total, m, PerDay(tf));
    DivUnique(t, tf.Width(), d * PerDay(tf) + total / m);
  }

  function PerDay(tf: Timeframe): (n: int)
    ensures n * tf.Minutes() == MINUTES_PER_DAY
  {
    MINUTES_PER_DAY / tf.Minutes()
  }

  /** Counting bins from the midnight of any day labels a moment with the same bar start. */
  lemma BinLabelIsBarStart(t: int, first: int, tf: Timeframe)
    ensures BinLabel(BinIndex(t, Midnight(first), tf), Midnight(first), tf) == BarStart(t, tf)
  {
    BarStartIsEpochFloor(t, tf);
    var m, w, d := tf.Minutes(), tf.Width(), first / US_PER_DAY;
    var perDay := MINUTES_PER_DAY / m;
    assert perDay * m == MINUTES_PER_DAY;
    var q := t / w - d * perDay;
    assert q * w == t / w * w - Midnight(first) by {
      assert q * w == t / w * w - d * perDay * w;
      assert d * perDay * w == d * (perDay * m) * US_PER_MINUTE;
    }
    DivBounds(t, w);
    DivUnique(t - Midnight(first), w, q);
  }

  /** Bar starts never run backwards with time. */
  lemma BarStartMonotone(t: int, u: int, tf: Timeframe)
    requires t <= u
    ensures BarStart(t, tf) <= BarStart(u, tf)
  {
    BarStartIsEpochFloor(t, tf);
    BarStartIsEpochFloor(u, tf);
    var w := tf.Width();
    MulCancel(t / w, u / w, w);
    MulMonotone(t / w, u / w, w);
  }

  function Ratio(narrow: Timeframe, wide: Timeframe): (k: int)
    requires wide.Minutes() % narrow.Minutes() == 0
    ensures k > 0 && wide.Minutes() == k * narrow.Minutes()
  {
    wide.Minutes() / narrow.Minutes()
  }

  lemma WidthRatio(narrow: Timeframe, wide: Timeframe) returns (k: int)
    requires wide.Minutes() % narrow.Minutes() == 0
    ensures k > 0 && wide.Width() == k * narrow.Width()
  {
    k := Ratio(narrow, wide);
  }

  lemma BarStartNestsAt(t: int, narrow: Timeframe, wide: Timeframe, s: int, k: int)
    requires k > 0 && wide.Width() == k * narrow.Width()
    requires s == t / narrow.Width() * narrow.Width()
    ensures s / wide.Width() * wide.Width() == t / wide.Width() * wide.Width()
  {
    FloorNests(t, narrow.Width(), k);
  }

  /** When the narrow width divides the wide one, the wide bar of a moment is the wide bar of its narrow bar's start. */
  lemma BarStartNests(t: int, narrow: Timeframe, wide: Timeframe)
    requires wide.Minutes() % narrow.Minutes() == 0
    ensures BarStart(BarStart(t, narrow), wide) == BarStart(t, wide)
  {
    var k := WidthRatio(narrow, wide);
    var s := BarStart(t, narrow);
    BarStartIsEpochFloor(t, narrow);
    BarStartNestsAt(t, narrow, wide, s, k);
    BarStartIsEpochFloor(t, wide);
    BarStartIsEpochFloor(s, wide);
  }

  // ---- which moments share a bar ------------------------------------------------------------------

  /** The bar of a minute within its day, by the clock's hour and minute hands. */
  function BarOfDay(m: Minute, tf: Timeframe): (int, int) {
    match tf
    case M1 => (m.hour, m.minute)
    case M5 => (m.hour, m.minute / 5)
    case M15 => (m.hour, m.minute / 15)
    case M30 => (m.hour, m.minute / 30)
    case H1 => (m.hour, 0)
    case H4 => (m.hour / 4, 0)
    case D1 => (0, 0)
  }

  function NumberOfBar(m: Minute, tf: Timeframe): int {
    (m.hour * 60 + m.minute) / tf.Minutes()
  }

  /** The bars that begin within one hour, at least one. */
  function PerHour(tf: Timeframe): int {
    if tf.Minutes() < 60 then 60 / tf.Minutes() else 1
  }

  /** The number of a bar within its day, from its hour hand and its minute hand. */
  lemma NumberInDay(m: Minute, tf: Timeframe)
    requires 0 <= m.hour < 24 && 0 <= m.minute < 60
    ensures var (h, k) := BarOfDay(m, tf);
            0 <= k < PerHour(tf) && NumberOfBar(m, tf) == h * PerHour(tf) + k
  {
    var total := m.hour * 60 + m.minute;
    match tf {
      case M1 =>
      case M5 => DivUnique(total, 5, m.hour * 12 + m.minute / 5);
      case M15 => DivUnique(total, 15, m.hour * 4 + m.minute / 15);
      case M30 => DivUnique(total, 30, m.hour * 2 + m.minute / 30);
      case H1 => DivUnique(total, 60, m.hour);
      case H4 => DivUnique(total, 240, m.hour / 4);
      case D1 => DivUnique(total, 1440, 0);
    }
  }

  lemma DigitsUnique(a: int, b: int, x: int, y: int, n: int)
    requires 0 <= x < n && 0 <= y < n && a * n + x == b * n + y
    ensures a == b && x == y
  {
    MulCancel(a, b, n);
    MulCancel(b, a, n);
  }

  lemma SlotOfMinute(m: Minute, n: Minute, tf: Timeframe)
    requires 0 <= m.hour < 24 && 0 <= m.minute < 60 && 0 <= n.hour < 24 && 0 <= n.minute < 60
    ensures NumberOfBar(m, tf) == NumberOfBar(n, tf) <==> BarOfDay(m, tf) == BarOfDay(n, tf)
  {
    NumberInDay(m, tf);
    NumberInDay(n, tf);
    var (h, k) := BarOfDay(m, tf);
    var (g, j) := BarOfDay(n, tf);
    if NumberOfBar(m, tf) == NumberOfBar(n, tf) {
      DigitsUnique(h, g, k, j, PerHour(tf));
    }
  }

  lemma BarStartByMinutes(t: int, tf: Timeframe)
    ensures var m := MinuteOf(t);
            var total := NumberOfBar(m, tf) * tf.Minutes();
            0 <= total < MINUTES_PER_DAY && BarStart(t, tf) == (m.day * MINUTES_PER_DAY + total) * US_PER_MINUTE
  {
    var m, k := MinuteOf(t), tf.Minutes();
    var sum := m.hour * 60 + m.minute;
    DivBounds(sum, k);
  }

  lemma SameStart(d: int, e: int, a: int, b: int, k: int)
    requires k > 0 && 0 <= a * k < MINUTES_PER_DAY && 0 <= b * k < MINUTES_PER_DAY
    ensures (d * MINUTES_PER_DAY + a * k) * US_PER_MINUTE == (e * MINUTES_PER_DAY + b * k) * US_PER_MINUTE <==>
              d == e && a == b
  {
    if d * MINUTES_PER_DAY + a * k == e * MINUTES_PER_DAY + b * k {
      DigitsUnique(d, e, a * k, b * k, MINUTES_PER_DAY);
      DigitsUnique(a, b, 0, 0, k);
    }
  }

  /** Two moments share a bar exactly when they fall on one day and the clock's hands are in one division of it: minutes
      for the short timeframes, hours, four hours, or nothing more than the day. */
  lemma SameBarExactly(t: int, u: int, tf: Timeframe)
    ensures BarStart(t, tf) == BarStart(u, tf) <==>
              MinuteOf(t).day == MinuteOf(u).day && BarOfDay(MinuteOf(t), tf) == BarOfDay(MinuteOf(u), tf)
  {
    var m, n := MinuteOf(t), MinuteOf(u);
    BarStartByMinutes(t, tf);
    BarStartByMinutes(u, tf);
    SlotOfMinute(m, n, tf);
    SameStart(m.day, n.day, NumberOfBar(m, tf), NumberOfBar(n, tf), tf.Minutes());
  }
}
