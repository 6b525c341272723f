/**
 * The crawl extensions: `TrackItemsScraped`, which counts scraped items and
 * reports progress every `item_count` items, and the counters of
 * `Latencies`, which accumulate per-item latencies between two periodic
 * reports. Clock readings are parameters; Python floats are modelled as reals.
 */
module Extensions {
  import opened Wrappers

  /** The crawler settings the extensions read, already parsed (None: not set). */
  datatype Settings = Settings(
    myextEnabled: Option<bool>,       // MYEXT_ENABLED
    myextItemCount: Option<int>,      // MYEXT_ITEMCOUNT
    latenciesInterval: Option<real>)  // LATENCIES_INTERVAL

  /** scrapy's `NotConfigured`: the extension declines to be enabled. */
  datatype ConfigError = NotConfigured

  const DefaultItemCount: int := 100

  /**
   * The gate of `TrackItemsScraped.from_crawler`: `getbool` reads an unset
   * MYEXT_ENABLED as false, `getint` falls back to 100.
   */
  function TrackItemsItemCount(settings: Settings): (r: Result<int, ConfigError>)
    ensures r.Failure? <==> settings.myextEnabled != Some(true)
    ensures r.Success? && settings.myextItemCount.None? ==> r.value == 100
    ensures r.Success? && settings.myextItemCount.Some? ==> r.value == settings.myextItemCount.value
  {
    if settings.myextEnabled != Some(true) then Failure(NotConfigured)
    else match settings.myextItemCount
      case None => Success(DefaultItemCount)
      case Some(n) => Success(n)
  }

  /**
   * The counts at which "Scraped %d items" is logged during the first
   * `scraped` calls of `item_scraped`, oldest first.
   */
  function ProgressMessages(scraped: nat, itemCount: int): (msgs: seq<nat>)
    requires itemCount != 0
    ensures forall i :: 0 <= i < |msgs| ==> 0 < msgs[i] <= scraped && msgs[i] % itemCount == 0
    ensures forall i, j :: 0 <= i < j < |msgs| ==> msgs[i] < msgs[j]
  {
    if scraped == 0 then []
    else ProgressMessages(scraped - 1, itemCount) + (if scraped % itemCount == 0 then [scraped] else [])
  }

  function Abs(x: int): nat { if x < 0 then -x else x }

  lemma MulAtLeastOnce(d: int, k: int)
    requires k >= 0
    ensures d >= 1 ==> d * k >= k
    ensures d <= -1 ==> d * k <= -k
  {
    assert d * k - k == (d - 1) * k;
    assert d * k + k == (d + 1) * k;
  }

  /** Quotient and remainder are determined by `n == q * k + r` with `0 <= r < k`. */
  lemma DivModUnique(n: int, k: nat, q: int, r: int)
    requires k > 0 && 0 <= r < k && n == q * k + r
    ensures n / k == q && n % k == r
  {
    var q0, r0 := n / k, n % k;
    assert (q - q0) * k == r0 - r;
    MulAtLeastOnce(q - q0, k);
  }

  lemma DivStep(n: nat, k: nat)
    requires n > 0 && k > 0
    ensures n / k == (n - 1) / k + (if n % k == 0 then 1 else 0)
  {
    var q, r := (n - 1) / k, (n - 1) % k;
    if r + 1 < k {
      DivModUnique(n, k, q, r + 1);
    } else {
      assert n == (q + 1) * k + 0;
      DivModUnique(n, k, q + 1, 0);
    }
  }

  /** After n scraped items exactly n / |item_count| progress messages have been logged. */
  lemma {:induction false} ProgressMessagesCount(scraped: nat, itemCount: int)
    requires itemCount != 0
    ensures |ProgressMessages(scraped, itemCount)| == scraped / Abs(itemCount)
  {
    if scraped > 0 {
      ProgressMessagesCount(scraped - 1, itemCount);
      DivStep(scraped, Abs(itemCount));
      assert scraped % itemCount == 0 <==> scraped % Abs(itemCount) == 0 by {
        if itemCount < 0 {
          var q, r := scraped / itemCount, scraped % itemCount;
          assert scraped == (-q) * Abs(itemCount) + r;
          DivModUnique(scraped, Abs(itemCount), -q, r);
        }
      }
    }
  }

  /** A count is reported exactly when it is a multiple of item_count reached so far. */
  lemma {:induction false} ProgressMessagesAreMultiples(scraped: nat, itemCount: int, m: nat)
    requires itemCount != 0
    ensures m in ProgressMessages(scraped, itemCount) <==> 0 < m <= scraped && m % itemCount == 0
  {
    if scraped > 0 {
      ProgressMessagesAreMultiples(scraped - 1, itemCount, m);
    }
  }

  class TrackItemsScraped {
    var itemCount: int
    var itemsScraped: nat
    /** What the extension has logged so far: the count of each "Scraped %d items" message. */
    ghost var messages: seq<nat>

    ghost predicate Valid()
      reads this
    {
      itemCount != 0 ==> messages == ProgressMessages(itemsScraped, itemCount)
    }

    /** `__init__(item_count)`. */
    constructor (itemCount: int)
      ensures Valid()
      ensures this.itemCount == itemCount && itemsScraped == 0 && messages == []
    {
      this.itemCount := itemCount;
      itemsScraped := 0;
      messages := [];
    }

    /** `from_crawler`: refuses when disabled, otherwise a fresh extension with the configured count. */
    static method FromCrawler(settings: Settings) returns (r: Result<TrackItemsScraped, ConfigError>)
      ensures r.Failure? <==> TrackItemsItemCount(settings).Failure?
      ensures r.Failure? ==> r.error == NotConfigured
      ensures r.Success? ==> fresh(r.value) && r.value.Valid()
      ensures r.Success? ==> r.value.itemCount == TrackItemsItemCount(settings).value
      ensures r.Success? ==> r.value.itemsScraped == 0 && r.value.messages == []
    {
      var gate := TrackItemsItemCount(settings);
      if gate.Failure? {
        return Failure(NotConfigured);
      }
      var ext := new TrackItemsScraped(gate.value);
      return Success(ext);
    }

    /** `spider_opened`: does nothing. */
    method SpiderOpened()
      ensures itemsScraped == old(itemsScraped) && itemCount == old(itemCount)
      ensures messages == old(messages)
    {
    }

    /** `spider_closed`: does nothing. */
    method SpiderClosed()
      ensures itemsScraped == old(itemsScraped) && itemCount == old(itemCount)
      ensures messages == old(messages)
    {
    }

    /**
     * `item_scraped`: one more item; a progress message when the new count is
     * a multiple of item_count (which must not be 0, or Python's `%` raises).
     */
    method ItemScraped() returns (logged: bool)
      requires Valid() && itemCount != 0
      modifies this
      ensures Valid()
      ensures itemsScraped == old(itemsScraped) + 1 && itemCount == old(itemCount)
      ensures logged <==> itemsScraped % itemCount == 0
      ensures messages == old(messages) + (if logged then [itemsScraped] else [])
      ensures |messages| == itemsScraped / Abs(itemCount)
    {
      itemsScraped := itemsScraped + 1;
      logged := itemsScraped % itemCount == 0;
      if logged {
        messages := messages + [itemsScraped];
      }
      ProgressMessagesCount(itemsScraped, itemCount);
    }
  }

  /**
   * The gate of `Latencies.__init__`: `getfloat` reads an unset
   * LATENCIES_INTERVAL as 0.0, and a zero interval is refused.
   */
  function LatenciesInterval(settings: Settings): (r: Result<real, ConfigError>)
    ensures r.Failure? <==> settings.latenciesInterval.None? || settings.latenciesInterval == Some(0.0)
    ensures r.Success? ==> Some(r.value) == settings.latenciesInterval && r.value != 0.0
  {
    var interval := match settings.latenciesInterval
      case None => 0.0
      case Some(x) => x;
    if interval == 0.0 then Failure(NotConfigured) else Success(interval)
  }

  /** `sum / count if count else 0`. */
  function Average(sum: real, count: nat): (avg: real)
    ensures count == 0 ==> avg == 0.0
    ensures count > 0 ==> avg * (count as real) == sum
  {
    if count == 0 then 0.0 else sum / count as real
  }

  /** `float(items) / interval`: items per second over one reporting interval. */
  function ItemRate(items: nat, interval: real): (rate: real)
    requires interval != 0.0
    ensures rate * interval == items as real
  {
    items as real / interval
  }

  /** The figures one "Scraped %d items at ..." line of `_log` carries. */
  datatype Report = Report(items: nat, rate: real, avgLatency: real, avgProcLatency: real)

  class Latencies {
    const interval: real
    var latency: real
    var procLatency: real
    var items: nat

    ghost predicate Valid()
      reads this
    {
      interval != 0.0
    }

    /** The part of `__init__` after the gate: all three accumulators start at zero. */
    constructor (interval: real)
      requires interval != 0.0
      ensures Valid() && this.interval == interval
      ensures latency == 0.0 && procLatency == 0.0 && items == 0
    {
      this.interval := interval;
      latency, procLatency, items := 0.0, 0.0, 0;
    }

    /** `from_crawler` / `__init__`: NotConfigured for an unset or zero interval. */
    static method FromCrawler(settings: Settings) returns (r: Result<Latencies, ConfigError>)
      ensures r.Failure? <==> LatenciesInterval(settings).Failure?
      ensures r.Success? ==> fresh(r.value) && r.value.Valid()
      ensures r.Success? ==> r.value.interval == LatenciesInterval(settings).value
      ensures r.Success? ==> r.value.latency == 0.0 && r.value.procLatency == 0.0 && r.value.items == 0
    {
      var gate := LatenciesInterval(settings);
      if gate.Failure? {
        return Failure(NotConfigured);
      }
      var ext := new Latencies(gate.value);
      return Success(ext);
    }

    /**
     * `_item_scraped`: the two `time()` readings are `firstNow` and
     * `secondNow`; the request's schedule and receive times come from its meta.
     */
    method ItemScraped(scheduleTime: real, receivedTime: real, firstNow: real, secondNow: real)
      modifies this
      ensures items == old(items) + 1
      ensures latency == old(latency) + (firstNow - scheduleTime)
      ensures procLatency == old(procLatency) + (secondNow - receivedTime)
    {
      latency := latency + (firstNow - scheduleTime);
      procLatency := procLatency + (secondNow - receivedTime);
      items := items + 1;
    }

    /**
     * `_item_dropped`: reads `item_scraped_count` from the crawl stats into a
     * local and decrements the local; a missing entry is swallowed. No
     * counter of the extension changes.
     */
    method ItemDropped(stats: map<string, int>)
      ensures latency == old(latency) && procLatency == old(procLatency) && items == old(items)
    {
      if "item_scraped_count" in stats {
        var itemCount := stats["item_scraped_count"];
        if itemCount != 0 {
          itemCount := itemCount - 1;
        }
      }
    }

    /** `_log`: reports the period's figures, averages 0 when no item came in, then resets. */
    method Log() returns (report: Report)
      requires Valid()
      modifies this
      ensures Valid()
      ensures report.items == old(items)
      ensures report.rate * interval == old(items) as real
      ensures old(items) == 0 ==> report.avgLatency == 0.0 && report.avgProcLatency == 0.0
      ensures old(items) > 0 ==> report.avgLatency * old(items) as real == old(latency)
      ensures old(items) > 0 ==> report.avgProcLatency * old(items) as real == old(procLatency)
      ensures latency == 0.0 && procLatency == 0.0 && items == 0
    {
      report := Report(items, ItemRate(items, interval), Average(latency, items), Average(procLatency, items));
      latency, procLatency, items := 0.0, 0.0, 0;
    }
  }
}
