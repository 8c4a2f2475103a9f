/**
 * The configuration record of config.py with its default values, the
 * per-type cache lifetimes of `get_cache_config`, and `validate`. Only the
 * fields that these two read or that carry a numeric default are kept; the
 * display strings (titles, colours, status labels) are not. The discount
 * percentage is a Python float and is kept as a `real`.
 */
module Config {
  import opened Wrappers
  import opened Seqs
  datatype DatabaseConfig = DatabaseConfig(
    dbPath: string,
    connectionTimeout: int,
    queryTimeout: int,
    maxConnections: int,
    ttlDefault: int,
    ttlCustomers: int,
    ttlFabrics: int,
    ttlInventory: int,
    ttlOrders: int,
    ttlDashboard: int)

  datatype UiConfig = UiConfig(pageSizeOptions: seq<int>, defaultPageSize: int, chartHeight: int, chartFontSize: int)

  datatype BusinessConfig = BusinessConfig(
    pointsPerYuan: int,
    minPointsForDiscount: int,
    maxDiscountPercentage: real,
    maxExportRecords: int)

  datatype PerformanceConfig = PerformanceConfig(
    enableQueryCache: bool,
    enableConnectionPool: bool,
    batchSize: int,
    maxBatchOperations: int,
    maxMemoryUsageMb: int,
    cleanupIntervalMinutes: int)

  datatype Config = Config(database: DatabaseConfig, ui: UiConfig, business: BusinessConfig, performance: PerformanceConfig)

  /** `Config()`: every section with its dataclass defaults. */
  const Default := Config(
    DatabaseConfig("business_management.db", 30, 60, 10, 300, 300, 600, 180, 60, 300),
    UiConfig([10, 20, 50], 10, 400, 16),
    BusinessConfig(1, 100, 20.0, 1000),
    PerformanceConfig(true, true, 100, 1000, 512, 30))

  /** The cache types `get_cache_config` knows, and the lifetime each one reads. */
  function KnownTtl(c: Config, cacheType: string): (r: Option<int>)
  {
    match cacheType
    case "default" => Some(c.database.ttlDefault)
    case "customers" => Some(c.database.ttlCustomers)
    case "fabrics" => Some(c.database.ttlFabrics)
    case "inventory" => Some(c.database.ttlInventory)
    case "orders" => Some(c.database.ttlOrders)
    case "dashboard" => Some(c.database.ttlDashboard)
    case _ => None
  }

  /** `get_cache_config(cache_type)`: the type's lifetime, or the default lifetime for a type it does not know. */
  function CacheTtl(c: Config, cacheType: string): (r: int)
    ensures cacheType == "orders" ==> r == c.database.ttlOrders
    ensures cacheType == "customers" ==> r == c.database.ttlCustomers
    ensures cacheType == "fabrics" ==> r == c.database.ttlFabrics
    ensures cacheType == "inventory" ==> r == c.database.ttlInventory
    ensures cacheType == "dashboard" ==> r == c.database.ttlDashboard
    ensures cacheType !in {"customers", "fabrics", "inventory", "orders", "dashboard"} ==> r == c.database.ttlDefault
  {
    var known := KnownTtl(c, cacheType);
    if known.Some? then known.value else c.database.ttlDefault
  }

  /** The conditions `validate` checks, in the order it checks them. */
  datatype Rule = EmptyDbPath | NonPositiveTimeout | PageSizeNotOffered | NonPositivePoints
    | DiscountOutOfRange | NonPositiveBatch | NonPositiveMemory

  const Rules := [EmptyDbPath, NonPositiveTimeout, PageSizeNotOffered, NonPositivePoints,
    DiscountOutOfRange, NonPositiveBatch, NonPositiveMemory]

  function Message(rule: Rule): string {
    match rule
    case EmptyDbPath => "数据库路径不能为空"
    case NonPositiveTimeout => "数据库连接超时时间必须大于0"
    case PageSizeNotOffered => "默认页面大小必须在可选项中"
    case NonPositivePoints => "每元积分数必须大于0"
    case DiscountOutOfRange => "最大折扣百分比必须在0-100之间"
    case NonPositiveBatch => "批量操作大小必须大于0"
    case NonPositiveMemory => "最大内存使用量必须大于0"
  }

  /** The configuration breaks the rule. */
  predicate Violates(c: Config, rule: Rule) {
    match rule
    case EmptyDbPath => |c.database.dbPath| == 0
    case NonPositiveTimeout => c.database.connectionTimeout <= 0
    case PageSizeNotOffered => c.ui.defaultPageSize !in c.ui.pageSizeOptions
    case NonPositivePoints => c.business.pointsPerYuan <= 0
    case DiscountOutOfRange => !(0.0 <= c.business.maxDiscountPercentage <= 100.0)
    case NonPositiveBatch => c.performance.batchSize <= 0
    case NonPositiveMemory => c.performance.maxMemoryUsageMb <= 0
  }

  /** The rules of `rules` the configuration breaks, in list order. */
  function BrokenAmong(c: Config, rules: seq<Rule>): (r: seq<Rule>)
    ensures |r| <= |rules|
    decreases |rules|
  {
    if |rules| == 0 then []
    else (if Violates(c, rules[0]) then [rules[0]] else []) + BrokenAmong(c, rules[1..])
  }

  lemma {:induction false} BrokenAmongMembership(c: Config, rules: seq<Rule>, rule: Rule)
    ensures rule in BrokenAmong(c, rules) <==> rule in rules && Violates(c, rule)
    decreases |rules|
  {
    if |rules| > 0 {
      BrokenAmongMembership(c, rules[1..], rule);
      assert rules == [rules[0]] + rules[1..];
    }
  }

  function Messages(rules: seq<Rule>): (r: seq<string>)
    ensures |r| == |rules|
    ensures forall i :: 0 <= i < |rules| ==> r[i] == Message(rules[i])
  {
    seq(|rules|, i requires 0 <= i < |rules| => Message(rules[i]))
  }

  function ErrorIf(broken: bool, rule: Rule): seq<string> {
    if broken then [Message(rule)] else []
  }

  /** `validate()`: checks the rules one after the other and collects a message for each broken one. */
  function Validate(c: Config): (r: seq<string>)
    ensures |r| <= |Rules|
  {
    ErrorIf(|c.database.dbPath| == 0, EmptyDbPath)
      + (ErrorIf(c.database.connectionTimeout <= 0, NonPositiveTimeout)
      + (ErrorIf(c.ui.defaultPageSize !in c.ui.pageSizeOptions, PageSizeNotOffered)
      + (ErrorIf(c.business.pointsPerYuan <= 0, NonPositivePoints)
      + (ErrorIf(!(0.0 <= c.business.maxDiscountPercentage <= 100.0), DiscountOutOfRange)
      + (ErrorIf(c.performance.batchSize <= 0, NonPositiveBatch)
      + ErrorIf(c.performance.maxMemoryUsageMb <= 0, NonPositiveMemory))))))
  }

  /** The messages of the broken rules from position `k` of the checking order on. */
  function Expected(c: Config, k: nat): seq<string>
    requires k <= |Rules|
  {
    Messages(BrokenAmong(c, Rules[k..]))
  }

  /** One step along the rule list: the rule at `k` reports first, then the rest. */
  lemma ExpectedStep(c: Config, k: nat)
    requires k < |Rules|
    ensures Expected(c, k) == ErrorIf(Violates(c, Rules[k]), Rules[k]) + Expected(c, k + 1)
  {
    assert Rules[k..][1..] == Rules[k + 1..];
    var rest := BrokenAmong(c, Rules[k + 1..]);
    var head: seq<Rule> := if Violates(c, Rules[k]) then [Rules[k]] else [];
    assert BrokenAmong(c, Rules[k..]) == head + rest;
    assert Messages(head + rest) == ErrorIf(Violates(c, Rules[k]), Rules[k]) + Messages(rest);
  }

  lemma ExpectedFromBatch(c: Config)
    ensures Expected(c, 4) ==
      ErrorIf(!(0.0 <= c.business.maxDiscountPercentage <= 100.0), DiscountOutOfRange)
      + (ErrorIf(c.performance.batchSize <= 0, NonPositiveBatch)
      + ErrorIf(c.performance.maxMemoryUsageMb <= 0, NonPositiveMemory))
  {
    assert Rules[7..] == [];
    ExpectedStep(c, 6);
    ExpectedStep(c, 5);
    ExpectedStep(c, 4);
  }

  lemma ExpectedFromPageSize(c: Config)
    ensures Expected(c, 2) ==
      ErrorIf(c.ui.defaultPageSize !in c.ui.pageSizeOptions, PageSizeNotOffered)
      + (ErrorIf(c.business.pointsPerYuan <= 0, NonPositivePoints)
      + Expected(c, 4))
  {
    ExpectedStep(c, 3);
    ExpectedStep(c, 2);
  }

  /**
   * The errors of `validate` are the messages of exactly the broken rules, in
   * checking order, one each. The configuration is a value, so validating it
   * cannot change it.
   */
  lemma ValidateInOrder(c: Config)
    ensures Validate(c) == Messages(BrokenAmong(c, Rules))
  {
    ExpectedFromBatch(c);
    ExpectedFromPageSize(c);
    ExpectedStep(c, 1);
    ExpectedStep(c, 0);
    assert Rules[0..] == Rules;
  }

  /** Each rule has its own message. */
  lemma MessageInjective(a: Rule, b: Rule)
    requires Message(a) == Message(b)
    ensures a == b
  {
  }

  /** A rule's message is among the errors exactly when the configuration breaks it. */
  lemma ValidateReportsBroken(c: Config, rule: Rule)
    ensures Message(rule) in Validate(c) <==> Violates(c, rule)
  {
    ValidateInOrder(c);
    var b := BrokenAmong(c, Rules);
    BrokenAmongMembership(c, Rules, rule);
    if Message(rule) in Validate(c) {
      var i :| 0 <= i < |b| && Message(b[i]) == Message(rule);
      MessageInjective(b[i], rule);
    }
  }

  /** The default configuration validates without errors. */
  lemma DefaultIsValid()
    ensures Validate(Default) == []
  {
    assert 10 in Default.ui.pageSizeOptions by {
      assert Default.ui.pageSizeOptions[0] == 10;
    }
  }

  /** The defaults of the cache lifetimes, as `get_cache_config` hands them out. */
  lemma DefaultCacheTtls(other: string)
    requires other !in {"default", "customers", "fabrics", "inventory", "orders", "dashboard"}
    ensures CacheTtl(Default, "orders") == 60 && CacheTtl(Default, "inventory") == 180
    ensures CacheTtl(Default, "fabrics") == 600 && CacheTtl(Default, "customers") == 300
    ensures CacheTtl(Default, "dashboard") == 300 && CacheTtl(Default, "default") == 300
    ensures CacheTtl(Default, other) == 300
  {
  }
}
