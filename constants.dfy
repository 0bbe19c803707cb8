/** The static configuration of constants.ts: the tier tables, the payout
    limits of each rule set, the exclusion lists used by classification and
    the per-platform feature flags.  Branding data is not modelled. */
module Constants {
  import opened Types

  // Weekly live casino (generic, 7K and Cassino).
  const WeeklyMinCashback: real := 0.50
  const WeeklyMaxCashback: real := 5000.00
  const WeeklyCalcLimitBase: real := 100000.00

  const WeeklyTiers: seq<Tier> := [
    Tier(1.00, Finite(499.99), 0.01),
    Tier(500.00, Finite(999.99), 0.02),
    Tier(1000.00, Finite(1499.99), 0.03),
    Tier(1500.00, Finite(4999.99), 0.04),
    Tier(5000.00, Unbounded, 0.05)
  ]

  // Daily slots (generic, 7K and Cassino).
  const DailyMinCashback: real := 0.01
  const DailyMaxCashback: real := 5000.00
  const DailyCalcLimitBase: real := 20000.00

  const DailyTiers: seq<Tier> := [
    Tier(1.00, Finite(399.99), 0.02),
    Tier(400.00, Finite(999.99), 0.04),
    Tier(1000.00, Finite(4999.99), 0.06),
    Tier(5000.00, Finite(9999.99), 0.08),
    Tier(10000.00, Finite(11999.99), 0.12),
    Tier(12000.00, Finite(19999.99), 0.15),
    Tier(20000.00, Unbounded, 0.25)
  ]

  // Vera overrides.
  const VeraWeeklyMinCashback: real := 0.01

  const VeraDailyTiers: seq<Tier> := [
    Tier(1.00, Finite(299.99), 0.02),
    Tier(300.00, Finite(999.99), 0.04),
    Tier(1000.00, Finite(4999.99), 0.06),
    Tier(5000.00, Finite(14999.99), 0.08),
    Tier(15000.00, Finite(24999.99), 0.10),
    Tier(25000.00, Finite(29999.99), 0.15),
    Tier(30000.00, Unbounded, 0.20)
  ]
  const VeraDailyCalcLimitBase: real := 25000.00

  // Aviator (the daily table under its own limits).
  const AviatorMinCashback: real := 0.01
  const AviatorMaxCashback: real := 5000.00
  const AviatorCalcLimitBase: real := 20000.00
  const AviatorTiers: seq<Tier> := DailyTiers

  // Sports.
  const SportsMinCashback: real := 0.01
  const SportsMaxCashback: real := 5000.00
  const SportsCalcLimitBase: real := 50000.00

  const SportsTiers: seq<Tier> := [
    Tier(0.01, Finite(499.99), 0.02),
    Tier(500.00, Finite(1999.99), 0.03),
    Tier(2000.00, Finite(9999.99), 0.04),
    Tier(10000.00, Finite(19999.99), 0.05),
    Tier(20000.00, Finite(24999.99), 0.06),
    Tier(25000.00, Finite(29999.99), 0.07),
    Tier(30000.00, Finite(49999.99), 0.08),
    Tier(50000.00, Unbounded, 0.10)
  ]

  // Games excluded from a category, matched as case-insensitive substrings.
  const ExcludedGamesWeekly: seq<string> :=
    ["Dragon Tiger", "Bac Bo", "Double Red Dog", "Sic BO", "Jogos de Crash", "Betting Games"]

  const VeraExcludedGamesWeekly: seq<string> :=
    ["Dragon Tiger", "Bac Bo", "Double Red Dog", "Baccarat", "Sic BO", "Jogos de Crash"]

  const ExcludedGamesDaily: seq<string> :=
    ["Jogos de Crash", "Vídeo Pôquer", "Inbet", "Mines", "Banana Mines", "Jogos Zeus", "Jogos de Mesa"]

  const VeraExcludedGamesDaily: seq<string> :=
    ["Crash (Aviator, JetX...)", "Apostas Esportivas", "Jogos de Mesa", "Vídeo Pôquer", "Cassino Ao Vivo"]

  /** The `hasSports` flag of each platform's configuration. */
  function HasSports(p: Platform): bool {
    p == SevenK
  }

  /** The `hasAviator` flag of each platform's configuration. */
  function HasAviator(p: Platform): bool {
    p == Cassino
  }
}
