/** Progress reporting of utils/progress.py: the human-readable size and
    duration, and the per-message throttle of `progress_for_pyrogram`. The
    clock is a parameter; the Telegram message edit is left out. */
module Progress {
  import opened Wrappers
  import opened Strings

  // ---------------------------------------------------------------------------
  // `human_bytes`.

  const Units: seq<string> := ["B", "KB", "MB", "GB", "TB"]

  function Pow1024(n: nat): (p: nat)
    ensures p >= 1
  {
    if n == 0 then 1 else 1024 * Pow1024(n - 1)
  }

  /** The unit `human_bytes` settles on: as many divisions by 1024 as keep
      the value at least 1, at most four (TB). */
  function UnitIndex(size: int): (n: nat)
    ensures n <= 4
    ensures n == 0 || size >= Pow1024(n)
    ensures n < 4 ==> size < Pow1024(n + 1)
  {
    if size < 1024 then 0
    else if size < 1024 * 1024 then 1
    else if size < 1024 * 1024 * 1024 then 2
    else if size < 1024 * 1024 * 1024 * 1024 then 3
    else 4
  }

  lemma PowValues()
    ensures Pow1024(1) == 1024 && Pow1024(2) == 1024 * 1024 && Pow1024(3) == 1024 * 1024 * 1024
    ensures Pow1024(4) == 1024 * 1024 * 1024 * 1024 && Pow1024(5) == 1024 * Pow1024(4)
  {
  }

  /** The unit index is the only one in range for the size. */
  lemma UnitIndexIs(size: int, n: nat)
    requires n <= 4
    requires n == 0 || size >= Pow1024(n)
    requires n < 4 ==> size < Pow1024(n + 1)
    ensures UnitIndex(size) == n
  {
    PowValues();
  }

  lemma DivStep(value: real, n: nat)
    ensures (value / 1024.0) * Pow1024(n + 1) as real == value * Pow1024(n) as real
  {
    var p := Pow1024(n) as real;
    assert Pow1024(n + 1) as real == 1024.0 * p;
    calc {
      (value / 1024.0) * (1024.0 * p);
      (value / 1024.0 * 1024.0) * p;
      value * p;
    }
  }

  /** Scaling by a positive factor keeps the comparison with 1024. */
  lemma ScaleCompare(value: real, p: nat, size: int)
    requires p >= 1 && value * p as real == size as real
    ensures value >= 1024.0 <==> size >= 1024 * p
  {
    if value >= 1024.0 {
      assert value * p as real >= 1024.0 * p as real;
    } else {
      assert value * p as real < 1024.0 * p as real;
    }
  }

  /** The value and unit `human_bytes` prints with `{size:.2f} {unit}`, or
      the literal `0 B`. */
  datatype HumanSize = ZeroBytes | Scaled(value: real, unit: string)

  /** `r` shows `size`: `0 B` for nothing, otherwise the value that times
      its unit's power of 1024 gives the size back. */
  predicate Describes(r: HumanSize, size: int) {
    (size == 0 <==> r == ZeroBytes) &&
    (size != 0 ==> r.Scaled? && r.unit == Units[UnitIndex(size)] &&
                   r.value * Pow1024(UnitIndex(size)) as real == size as real)
  }

  /** One more division keeps the loop's invariant. */
  lemma DivideKeeps(value: real, n: nat, size: int)
    requires value * Pow1024(n) as real == size as real
    requires value >= 1024.0
    ensures (value / 1024.0) * Pow1024(n + 1) as real == size as real
    ensures size >= Pow1024(n + 1)
  {
    ScaleCompare(value, Pow1024(n), size);
    DivStep(value, n);
  }

  /** Once the loop stops, its count of divisions is the unit index. */
  lemma UnitSettled(value: real, n: nat, size: int)
    requires n <= 4 && value * Pow1024(n) as real == size as real
    requires n == 0 || size >= Pow1024(n)
    requires !(value >= 1024.0 && n < 4)
    ensures UnitIndex(size) == n
  {
    ScaleCompare(value, Pow1024(n), size);
    assert Pow1024(n + 1) == 1024 * Pow1024(n);
    UnitIndexIs(size, n);
  }

  /** `human_bytes(size)`: divide by 1024 while the value is at least 1024
      and a larger unit is left. */
  method HumanBytes(size: int) returns (r: HumanSize)
    ensures size == 0 <==> r == ZeroBytes
    ensures size != 0 ==> r.Scaled? && r.unit == Units[UnitIndex(size)]
    ensures size != 0 ==> r.value * Pow1024(UnitIndex(size)) as real == size as real
    ensures Describes(r, size)
  {
    if size == 0 {
      return ZeroBytes;
    }
    var value: real := size as real;
    var n: nat := 0;
    while value >= 1024.0 && n < |Units| - 1
      invariant n <= 4
      invariant value * Pow1024(n) as real == size as real
      invariant n == 0 || size >= Pow1024(n)
      decreases 4 - n
    {
      DivideKeeps(value, n, size);
      value := value / 1024.0;
      n := n + 1;
    }
    UnitSettled(value, n, size);
    return Scaled(value, Units[n]);
  }

  // ---------------------------------------------------------------------------
  // `human_time`.

  /** `m, s = divmod(t, 60); h, m = divmod(m, 60)`. */
  function Hms(t: nat): (r: (nat, nat, nat))
    ensures r.0 * 3600 + r.1 * 60 + r.2 == t
    ensures r.1 < 60 && r.2 < 60
  {
    var m := t / 60;
    (m / 60, m % 60, t % 60)
  }

  /** `human_time(seconds)`: a negative count is taken as 0; the hours are
      shown only when there are some, the minutes only when there are hours
      or minutes. */
  function HumanTime(seconds: int): string {
    var t := if seconds < 0 then 0 else seconds;
    var (h, m, s) := Hms(t);
    if h != 0 then NatToString(h) + "h " + NatToString(m) + "m " + NatToString(s) + "s"
    else if m != 0 then NatToString(m) + "m " + NatToString(s) + "s"
    else NatToString(s) + "s"
  }

  /** The seconds `v` units of `u` stand for. */
  function InSeconds(v: int, u: char): int {
    if u == 'h' then v * 3600 else if u == 'm' then v * 60 else v
  }

  predicate IsUnit(u: char) {
    u == 'h' || u == 'm' || u == 's'
  }

  /** The seconds one word such as `12m` stands for. */
  function WordSeconds(w: string): Option<int> {
    if w == [] || !IsUnit(w[|w| - 1]) then None
    else
      match ParseInt(w[..|w| - 1])
      case Some(v) => Some(InSeconds(v, w[|w| - 1]))
      case None => None
  }

  /** The sum of `f` over `ws`, or `None` when `f` fails on a word. */
  function SumWords(f: string -> Option<int>, ws: seq<string>): Option<int> {
    if ws == [] then Some(0)
    else
      var a, b := f(ws[0]), SumWords(f, ws[1..]);
      if a.Some? && b.Some? then Some(a.value + b.value) else None
  }

  /** Reading a duration such as `1h 2m 3s` back: the sum of its words. */
  function ParseDuration(text: string): Option<int> {
    SumWords(WordSeconds, Words(text))
  }

  /** A number followed by its unit letter is one word. */
  lemma UnitWord(n: nat, u: char)
    requires IsUnit(u)
    ensures NatToString(n) + [u] != [] && NoSpace(NatToString(n) + [u])
  {
    var d := NatToString(n);
    var w := d + [u];
    forall i | 0 <= i < |w| ensures !IsSpace(w[i]) {
      if i < |d| {
        assert w[i] == d[i] && IsDigit(d[i]);
      } else {
        assert w[i] == u;
      }
    }
  }

  /** A number followed by its unit letter reads back as that many seconds. */
  lemma WordSecondsOf(n: nat, u: char)
    requires IsUnit(u)
    ensures WordSeconds(NatToString(n) + [u]) == Some(InSeconds(n, u))
  {
    var d := NatToString(n);
    var w := d + [u];
    assert w[..|w| - 1] == d;
    assert w[|w| - 1] == u;
    IntToStringRoundTrip(n);
    assert IntToString(n) == d;
  }

  /** The words `human_time` writes, hours and minutes left out when zero. */
  function TimeWords(seconds: int): seq<string> {
    var t := if seconds < 0 then 0 else seconds;
    var r := Hms(t);
    PartWords(r.0, r.1, r.2)
  }

  function PartWords(h: nat, m: nat, s: nat): seq<string> {
    if h != 0 then [NatToString(h) + "h", NatToString(m) + "m", NatToString(s) + "s"]
    else if m != 0 then [NatToString(m) + "m", NatToString(s) + "s"]
    else [NatToString(s) + "s"]
  }

  lemma ThreeParts(a: string, b: string, c: string)
    ensures a + "h " + b + "m " + c + "s" == (a + "h") + " " + ((b + "m") + " " + (c + "s"))
    ensures b + "m " + c + "s" == (b + "m") + " " + (c + "s")
  {
  }

  /** `human_time` writes its words separated by single blanks. */
  lemma HumanTimeWords(seconds: int)
    ensures Words(HumanTime(seconds)) == TimeWords(seconds)
  {
    var t := if seconds < 0 then 0 else seconds;
    var (h, m, s) := Hms(t);
    var dh, dm, ds := NatToString(h), NatToString(m), NatToString(s);
    UnitWord(h, 'h');
    UnitWord(m, 'm');
    UnitWord(s, 's');
    ThreeParts(dh, dm, ds);
    if h != 0 {
      WordsThree(dh + "h", dm + "m", ds + "s");
    } else if m != 0 {
      WordsTwo(dm + "m", ds + "s");
    } else {
      WordsOne(ds + "s");
    }
  }

  /** `human_time` loses nothing: reading its text back gives the clamped
      number of seconds. */
  lemma HumanTimeRoundTrip(seconds: int)
    ensures ParseDuration(HumanTime(seconds)) == Some(if seconds < 0 then 0 else seconds)
  {
    HumanTimeWords(seconds);
    TimeWordsSum(seconds);
  }

  lemma TimeWordsSum(seconds: int)
    ensures SumWords(WordSeconds, TimeWords(seconds)) == Some(if seconds < 0 then 0 else seconds)
  {
    var t := if seconds < 0 then 0 else seconds;
    var r := Hms(t);
    WordSecondsOf(r.0, 'h');
    WordSecondsOf(r.1, 'm');
    WordSecondsOf(r.2, 's');
    PartWordsSum(WordSeconds, r.0, r.1, r.2, t);
  }

  /** The words of the parts add up to the seconds they stand for, for any
      reading `f` of single words that gets each of them right. */
  lemma PartWordsSum(f: string -> Option<int>, h: nat, m: nat, s: nat, t: nat)
    requires h * 3600 + m * 60 + s == t
    requires f(NatToString(h) + "h") == Some(h * 3600)
    requires f(NatToString(m) + "m") == Some(m * 60)
    requires f(NatToString(s) + "s") == Some(s)
    ensures SumWords(f, PartWords(h, m, s)) == Some(t)
  {
    SumOfWords(f, NatToString(h) + "h", NatToString(m) + "m", NatToString(s) + "s", h * 3600, m * 60, s);
  }

  lemma SumOfWords(f: string -> Option<int>, x: string, y: string, z: string, a: int, b: int, c: int)
    requires f(x) == Some(a) && f(y) == Some(b) && f(z) == Some(c)
    ensures SumWords(f, [z]) == Some(c)
    ensures SumWords(f, [y, z]) == Some(b + c)
    ensures SumWords(f, [x, y, z]) == Some(a + b + c)
  {
    assert [z][1..] == [];
    assert [y, z][1..] == [z];
    assert [x, y, z][1..] == [y, z];
  }

  /** How many parts `human_time` shows: all three from an hour on, minutes
      and seconds from a minute on, only seconds below; `0s` for nothing. */
  lemma HumanTimeParts(seconds: int)
    ensures var t := if seconds < 0 then 0 else seconds;
      |Words(HumanTime(seconds))| == (if t >= 3600 then 3 else if t >= 60 then 2 else 1)
  {
    var t := if seconds < 0 then 0 else seconds;
    var r := Hms(t);
    HumanTimeWords(seconds);
    PartCount(r.0, r.1, r.2, t);
  }

  /** Nothing left shows as `0s`. */
  lemma HumanTimeZero(seconds: int)
    requires seconds <= 0
    ensures HumanTime(seconds) == "0s"
  {
    assert Hms(0) == (0, 0, 0);
    assert NatToString(0) == "0";
  }

  lemma PartCount(h: nat, m: nat, s: nat, t: nat)
    requires h * 3600 + m * 60 + s == t && m < 60 && s < 60
    ensures |PartWords(h, m, s)| == (if t >= 3600 then 3 else if t >= 60 then 2 else 1)
  {
  }

  // ---------------------------------------------------------------------------
  // `progress_for_pyrogram`.

  /** Python's `int(x)` on a float: truncation toward zero. */
  function Trunc(x: real): (r: int)
    ensures x >= 0.0 ==> r as real <= x < r as real + 1.0
    ensures x < 0.0 ==> r as real - 1.0 < x <= r as real
  {
    if x >= 0.0 then x.Floor else -((-x).Floor)
  }

  /** `c * n` for a one-character string; empty for a negative count. */
  function Repeat(c: char, n: int): (r: string)
    decreases if n < 0 then 0 else n
    ensures |r| == if n < 0 then 0 else n
    ensures forall i :: 0 <= i < |r| ==> r[i] == c
  {
    if n <= 0 then [] else [c] + Repeat(c, n - 1)
  }

  const Filled: char := '\U{25CF}'
  const Empty: char := '\U{25CB}'
  const BarCells: int := 20

  /** `current * 100 / total`, or 0 for an unknown total. */
  function Percent(current: int, total: int): real {
    if total == 0 then 0.0 else (current * 100) as real / total as real
  }

  /** `int(20 * percent / 100)`: the filled cells of the bar. */
  function FilledLen(percent: real): int {
    Trunc(BarCells as real * percent / 100.0)
  }

  /** The bar: filled cells, then empty ones up to twenty. */
  function Bar(filled: int): string {
    Repeat(Filled, filled) + Repeat(Empty, BarCells - filled)
  }

  /** Bytes per second since the start, 0 before any time has passed. */
  function Speed(current: int, elapsed: real): real {
    if elapsed > 0.0 then current as real / elapsed else 0.0
  }

  /** Whole seconds left at the current speed, 0 when nothing moves. */
  function Eta(current: int, total: int, speed: real): int {
    if speed > 0.0 then Trunc((total - current) as real / speed) else 0
  }

  /** What one shown report holds: the percentage, the bar, the sizes done,
      in all and per second, and the time left. */
  datatype View = View(percent: real, bar: string, done: HumanSize, size: HumanSize,
                       speed: HumanSize, timeLeft: string)

  /** The time of the last shown report of a message, 0 before the first. */
  function Last(lastUpdate: map<int, real>, msgId: int): real {
    if msgId in lastUpdate then lastUpdate[msgId] else 0.0
  }

  /** A report is dropped when it comes within the interval of the message's
      last shown one, unless the transfer is complete. */
  predicate Skipped(lastUpdate: map<int, real>, msgId: int, current: int, total: int,
                    now: real, interval: real) {
    now - Last(lastUpdate, msgId) < interval && current != total
  }

  /** The table after a report: unchanged when it is dropped, the message
      forgotten on completion, its time recorded otherwise. */
  function AfterReport(lastUpdate: map<int, real>, msgId: int, current: int, total: int,
                       now: real, interval: real): map<int, real> {
    if Skipped(lastUpdate, msgId, current, total, now, interval) then lastUpdate
    else if current == total then lastUpdate - {msgId}
    else lastUpdate[msgId := now]
  }

  /** The per-message throttle table `_last_update` of the progress callback. */
  class ProgressTracker {
    var lastUpdate: map<int, real>

    constructor()
      ensures lastUpdate == map[]
    {
      lastUpdate := map[];
    }

    /** `progress_for_pyrogram` at time `now`: either dropped, or the view
        the message is edited to. */
    method Report(current: int, total: int, msgId: int, startTime: real, now: real,
                  interval: real) returns (shown: Option<View>)
      modifies this
      ensures lastUpdate == AfterReport(old(lastUpdate), msgId, current, total, now, interval)
      ensures shown.None? <==> Skipped(old(lastUpdate), msgId, current, total, now, interval)
      ensures shown.Some? ==>
        var percent := Percent(current, total);
        var speed := Speed(current, now - startTime);
        shown.value.percent == percent &&
        shown.value.bar == Bar(FilledLen(percent)) &&
        Describes(shown.value.done, current) && Describes(shown.value.size, total) &&
        Describes(shown.value.speed, Trunc(speed)) &&
        shown.value.timeLeft == HumanTime(Eta(current, total, speed))
    {
      var last := if msgId in lastUpdate then lastUpdate[msgId] else 0.0;
      if now - last < interval && current != total {
        return None;
      }
      lastUpdate := lastUpdate[msgId := now];
      var view := RenderView(current, total, now - startTime);
      shown := Some(view);
      if current == total && msgId in lastUpdate {
        lastUpdate := lastUpdate - {msgId};
      }
    }
  }

  /** The text of one shown report: the percentage, the bar, the sizes, the
      speed and the time left, after `elapsed` seconds. */
  method RenderView(current: int, total: int, elapsed: real) returns (v: View)
    ensures var percent := Percent(current, total);
      var speed := Speed(current, elapsed);
      v.percent == percent &&
      v.bar == Bar(FilledLen(percent)) &&
      Describes(v.done, current) && Describes(v.size, total) &&
      Describes(v.speed, Trunc(speed)) &&
      v.timeLeft == HumanTime(Eta(current, total, speed))
  {
    var percent := if total == 0 then 0.0 else (current * 100) as real / total as real;
    assert percent == Percent(current, total);
    var speed := if elapsed > 0.0 then current as real / elapsed else 0.0;
    assert speed == Speed(current, elapsed);
    var eta := if speed > 0.0 then Trunc((total - current) as real / speed) else 0;
    assert eta == Eta(current, total, speed);
    var filledLen := Trunc(20.0 * percent / 100.0);
    var bar := Repeat(Filled, filledLen) + Repeat(Empty, 20 - filledLen);
    assert bar == Bar(FilledLen(percent));
    var done := HumanBytes(current);
    var size := HumanBytes(total);
    var rate := HumanBytes(Trunc(speed));
    v := View(percent, bar, done, size, rate, HumanTime(eta));
  }

  /** A complete transfer is always shown and its message forgotten. */
  lemma CompletionShown(lastUpdate: map<int, real>, msgId: int, total: int, now: real, interval: real)
    ensures !Skipped(lastUpdate, msgId, total, total, now, interval)
    ensures AfterReport(lastUpdate, msgId, total, total, now, interval) == lastUpdate - {msgId}
  {
  }

  /** Within the interval of the last shown report an incomplete one is
      dropped and changes nothing; after it, it is shown and recorded. */
  lemma ThrottleWindow(lastUpdate: map<int, real>, msgId: int, current: int, total: int,
                       now: real, interval: real)
    requires current != total
    ensures Skipped(lastUpdate, msgId, current, total, now, interval) <==>
            now < Last(lastUpdate, msgId) + interval
    ensures var after := AfterReport(lastUpdate, msgId, current, total, now, interval);
            if now < Last(lastUpdate, msgId) + interval then after == lastUpdate
            else msgId in after && after[msgId] == now
  {
  }

  /** A report touches only its own message's entry. */
  lemma OtherMessagesUntouched(lastUpdate: map<int, real>, msgId: int, current: int, total: int,
                               now: real, interval: real, other: int)
    requires other != msgId
    ensures var after := AfterReport(lastUpdate, msgId, current, total, now, interval);
            (other in after <==> other in lastUpdate) &&
            (other in after ==> after[other] == lastUpdate[other])
  {
  }

  /** Two dropped reports in a row leave the table as it was. */
  lemma SkippedIdle(lastUpdate: map<int, real>, msgId: int, current: int, total: int,
                    now: real, interval: real)
    requires Skipped(lastUpdate, msgId, current, total, now, interval)
    ensures AfterReport(lastUpdate, msgId, current, total, now, interval) == lastUpdate
  {
  }

  /** A fraction of naturals rounds down as integer division does. */
  lemma FloorOfQuotient(a: nat, b: int)
    requires b > 0
    ensures (a as real / b as real).Floor == a / b
  {
    var q, r := a / b, a % b;
    assert a == q * b + r;
    assert (a as real) / (b as real) == q as real + (r as real) / (b as real);
    assert 0.0 <= (r as real) / (b as real) < 1.0;
  }

  /** Dividing by a positive real keeps an order, strictly or not. */
  lemma DivideOrder(x: real, y: real, d: real)
    requires d > 0.0 && x <= y
    ensures x / d <= y / d
    ensures x < y ==> x / d < y / d
  {
  }

  lemma PercentRange(current: int, total: int)
    requires 0 <= current <= total && total > 0
    ensures 0.0 <= Percent(current, total) <= 100.0
    ensures Percent(current, total) == 100.0 <==> current == total
  {
    var t := total as real;
    assert (total * 100) as real / t == 100.0;
    DivideOrder(0.0, (current * 100) as real, t);
    DivideOrder((current * 100) as real, (total * 100) as real, t);
  }

  lemma FilledIsQuotient(current: int, total: int)
    requires 0 <= current && total > 0
    ensures FilledLen(Percent(current, total)) == (BarCells * current) / total
  {
    var t := total as real;
    var p := (current * 100) as real / t;
    assert BarCells as real * p / 100.0 == (BarCells * current) as real / t;
    FloorOfQuotient(BarCells * current, total);
  }

  /** Integer division by `total` of `20 * current` stays within the cells and
      reaches twenty only at the end. */
  lemma QuotientCells(current: int, total: int)
    requires 0 <= current <= total && total > 0
    ensures 0 <= (BarCells * current) / total <= BarCells
    ensures (BarCells * current) / total == BarCells <==> current == total
  {
    var x := BarCells * current;
    var f := x / total;
    DivBounds(x, total);
    if current < total {
      assert x < BarCells * total;
      CancelFactorStrict(f, BarCells, total);
    } else {
      assert x == BarCells * total;
      CancelFactor(f, BarCells, total);
      CancelFactorStrict(BarCells, f + 1, total);
    }
  }

  /** Euclidean division by a positive divisor brackets the dividend. */
  lemma DivBounds(x: int, t: int)
    requires x >= 0 && t > 0
    ensures 0 <= x / t
    ensures (x / t) * t <= x < (x / t + 1) * t
  {
  }

  lemma CancelFactorStrict(a: int, b: int, c: int)
    requires c > 0 && a * c < b * c
    ensures a < b
  {
  }

  /** A positive factor can be cancelled from a comparison. */
  lemma CancelFactor(a: int, b: int, c: int)
    requires c > 0 && a * c <= b * c
    ensures a <= b
  {
  }

  /** On a transfer in progress the percentage lies in [0, 100] and the bar
      fills `20 * current // total` of its cells, all twenty exactly at the
      end. */
  lemma PercentBar(current: int, total: int)
    requires 0 <= current <= total && total > 0
    ensures 0.0 <= Percent(current, total) <= 100.0
    ensures Percent(current, total) == 100.0 <==> current == total
    ensures FilledLen(Percent(current, total)) == (BarCells * current) / total
    ensures 0 <= FilledLen(Percent(current, total)) <= BarCells
    ensures FilledLen(Percent(current, total)) == BarCells <==> current == total
  {
    PercentRange(current, total);
    FilledIsQuotient(current, total);
    QuotientCells(current, total);
  }

  /** A bar with a count in range has twenty cells, filled ones first. */
  lemma BarShape(filled: int)
    requires 0 <= filled <= BarCells
    ensures |Bar(filled)| == BarCells
    ensures forall i :: 0 <= i < filled ==> Bar(filled)[i] == Filled
    ensures forall i :: filled <= i < BarCells ==> Bar(filled)[i] == Empty
  {
  }

  /** Multiplying by a positive real keeps an order, strictly or not. */
  lemma MultiplyOrder(x: real, y: real, d: real)
    requires d > 0.0 && x <= y
    ensures x * d <= y * d
    ensures x < y ==> x * d < y * d
  {
  }

  /** The time left is zero at the end and never negative before it; while
      data moves it is the whole seconds the rest takes at the current speed. */
  lemma EtaFacts(current: int, total: int, speed: real)
    ensures current == total ==> Eta(current, total, speed) == 0
    ensures current <= total ==> Eta(current, total, speed) >= 0
    ensures speed <= 0.0 ==> Eta(current, total, speed) == 0
    ensures speed > 0.0 && current <= total ==>
      Eta(current, total, speed) as real * speed <= (total - current) as real <
      (Eta(current, total, speed) + 1) as real * speed
  {
    if speed > 0.0 && current <= total {
      var x := (total - current) as real / speed;
      var e := Trunc(x);
      assert x * speed == (total - current) as real;
      DivideOrder(0.0, (total - current) as real, speed);
      assert e as real <= x < (e + 1) as real;
      MultiplyOrder(e as real, x, speed);
      MultiplyOrder(x, (e + 1) as real, speed);
      assert Eta(current, total, speed) == e;
      assert (total - current) as real < (e + 1) as real * speed;
    }
  }
}
