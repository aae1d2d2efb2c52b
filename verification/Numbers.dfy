/** Plain integer arithmetic, and the scales the columns store numbers at. */
module Numbers {

  const FULL := 10000           // 100.00 percent, or 100.00 points
  const CENT8 := 1000000        // one cent in 1e-8
  const CENT12 := 10000000000   // one cent in 1e-12

  function Min(x: int, y: int): int { if x < y then x else y }

  function Max(x: int, y: int): int { if x < y then y else x }

  function Sum(s: seq<int>): int { if s == [] then 0 else s[0] + Sum(s[1..]) }
}
