/** The settings of the transaction pool (core/tx_pool.go). */
module PoolConfig {

  datatype Config = Config(priceLimit: nat, priceBump: nat, accountSlots: nat, globalSlots: nat,
                           accountQueue: nat, globalQueue: nat)

  const DEFAULT_CONFIG := Config(DEFAULT_GAS_PRICE, 10, 16 * 5, 4096 * 5, 64 * 5, 1024 * 5)
  const DEFAULT_GAS_PRICE: nat := 10_000_000_000

  /** Replaces unworkable settings by the defaults. */
  function Sanitize(c: Config): (r: Config)
    ensures r.priceLimit >= DEFAULT_GAS_PRICE && r.priceBump >= 1 && r.accountSlots >= 1 && r.globalSlots >= 1
    ensures r.accountQueue >= 1 && r.globalQueue >= 1
    ensures r.priceLimit == c.priceLimit || (c.priceLimit < 10_000_000_000 && r.priceLimit == 10_000_000_000)
    ensures r.priceBump == c.priceBump || (c.priceBump == 0 && r.priceBump == 10)
    ensures r.accountSlots == c.accountSlots || (c.accountSlots == 0 && r.accountSlots == 80)
    ensures r.globalSlots == c.globalSlots || (c.globalSlots == 0 && r.globalSlots == 20480)
    ensures r.accountQueue == c.accountQueue || (c.accountQueue == 0 && r.accountQueue == 320)
    ensures r.globalQueue == c.globalQueue || (c.globalQueue == 0 && r.globalQueue == 5120)
  {
    Config(if c.priceLimit < DEFAULT_GAS_PRICE then DEFAULT_CONFIG.priceLimit else c.priceLimit,
           if c.priceBump < 1 then DEFAULT_CONFIG.priceBump else c.priceBump,
           if c.accountSlots < 1 then DEFAULT_CONFIG.accountSlots else c.accountSlots,
           if c.globalSlots < 1 then DEFAULT_CONFIG.globalSlots else c.globalSlots,
           if c.accountQueue < 1 then DEFAULT_CONFIG.accountQueue else c.accountQueue,
           if c.globalQueue < 1 then DEFAULT_CONFIG.globalQueue else c.globalQueue)
  }
}
