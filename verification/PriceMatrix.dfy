/** The derived price table: one row per variant, customer tier and currency.

    Prices are in ten-thousandths, exchange rates in millionths and percentages in
    hundredths, as their columns store them. */
module PriceMatrix {
  import opened Outcomes
  import opened Numbers
  import opened Rounding

  const ONE: Rate := 1000000

  type Code = nat
  type TierId = nat
  type VariantId = nat

  /** The CHECKs on the rate and on the tier's percentage. */
  type Rate = r: int | r > 0 witness 1
  type Percent = p: int | 0 <= p <= FULL

  /** `saved`: written by a committed matrix save. */
  datatype Variant = Variant(product: nat, basePrice: nat, saved: bool)

  datatype PriceKey = PriceKey(variant: VariantId, tier: TierId, code: Code)

  /** `base` is the currency flagged as base, if there is one. */
  datatype Matrix = Matrix(base: Option<Code>, rates: map<Code, Rate>, tiers: map<TierId, Percent>,
                           variants: map<VariantId, Variant>, prices: map<PriceKey, int>)

  datatype Refusal =
    | ConstraintViolated | Unknown | BaseRateFixed | BaseNotDeletable | StillPriced | StillQuoted | StillInUse
    | ForeignVariant | NoCost | NoPrice | NoStockFigure

  type Outcome = Result<Matrix, Refusal>

  predicate HasBase(m: Matrix) { m.base.Some? && m.base.value in m.rates }

  // --------------------------------------------------------------- formula

  /** amount in one currency as num / den in another, through the base. */
  function Convert(amount: int, from: Code, fromRate: Rate, to: Code, toRate: Rate): (r: (int, Rate)) {
    if from == to then (amount, 1) else (amount * fromRate, toRate)
  }

  function UnitPrice(basePrice: int, from: Code, fromRate: Rate, to: Code, toRate: Rate, percent: Percent): int {
    var (num, den) := Convert(basePrice, from, fromRate, to, toRate);
    HalfUp(num * (FULL - percent), den * FULL)
  }

  predicate Live(m: Matrix, k: PriceKey) { k.variant in m.variants && k.tier in m.tiers && k.code in m.rates }

  /** What the row of k has to say: the base price converted, less the tier's discount. */
  function PriceOf(m: Matrix, k: PriceKey): int
    requires HasBase(m) && Live(m, k)
  {
    UnitPrice(m.variants[k.variant].basePrice, m.base.value, m.rates[m.base.value], k.code, m.rates[k.code],
        m.tiers[k.tier])
  }

  /** The stored price is the nearest ten-thousandth, in the base's own terms. */
  lemma {:induction false} StoredIsNearest(m: Matrix, k: PriceKey)
    requires HasBase(m) && Live(m, k) && m.rates[m.base.value] == ONE
    ensures var exact := m.variants[k.variant].basePrice * ONE * (FULL - m.tiers[k.tier]);
            var den := m.rates[k.code] * FULL;
            -den <= 2 * (den * PriceOf(m, k) - exact) <= den
  {
    var base, price, keep, rate := m.base.value, m.variants[k.variant].basePrice, FULL - m.tiers[k.tier],
        m.rates[k.code];
    if k.code == base {
      HalfUpIsNearest(price * keep, FULL);
      var stored := PriceOf(m, k);
      assert PriceOf(m, k) == HalfUp(price * keep, FULL);
      assert price * ONE * keep == ONE * (price * keep);
      assert rate * FULL == ONE * FULL && (ONE * FULL) * stored == ONE * (FULL * stored);
    } else {
      HalfUpIsNearest(price * ONE * keep, rate * FULL);
    }
  }

  // --------------------------------------------------------------- rebuild

  function Cells(variants: set<VariantId>, tiers: set<TierId>, codes: set<Code>): set<PriceKey> {
    set v, t, c | v in variants && t in tiers && c in codes :: PriceKey(v, t, c)
  }

  /** A price table with the given live cells written from the formula. */
  function Written(m: Matrix, prices: map<PriceKey, int>, cells: set<PriceKey>): map<PriceKey, int>
    requires HasBase(m) && forall k :: k in cells ==> Live(m, k)
  {
    map k | k in prices.Keys + cells :: if k in cells then PriceOf(m, k) else prices[k]
  }

  predicate Dead(m: Matrix, k: PriceKey, ids: set<VariantId>) {
    k.variant in ids && !(k.tier in m.tiers && k.code in m.rates)
  }

  predicate NothingToRebuild(m: Matrix, ids: set<VariantId>) {
    !HasBase(m) || m.tiers == map[] || ids * m.variants.Keys == {}
  }

  function DeadRows(m: Matrix, ids: set<VariantId>): set<PriceKey> {
    set k | k in m.prices && Dead(m, k, ids)
  }

  /** Writes every cell of the named variants, drops their dead rows and commits; leaves
      everything, dead rows too, when there is no base, no tier or no variant. */
  function RebuildPrices(m: Matrix, ids: set<VariantId>): map<PriceKey, int> {
    if NothingToRebuild(m, ids) then m.prices
    else
      var live := ids * m.variants.Keys;
      Written(m, m.prices, Cells(live, m.tiers.Keys, m.rates.Keys)) - DeadRows(m, live)
  }

  function Rebuilt(m: Matrix, ids: set<VariantId>): Matrix { m.(prices := RebuildPrices(m, ids)) }

  function RebuiltAll(m: Matrix): Matrix { Rebuilt(m, m.variants.Keys) }

  // ----------------------------------------------------------------- calls

  function CreateCurrency(m: Matrix, code: Code, rate: int): Outcome {
    if code in m.rates || rate <= 0 then Refused(ConstraintViolated)
    else Committed(RebuiltAll(m.(rates := m.rates[code := rate])))
  }

  function UpdateRate(m: Matrix, code: Code, rate: int): Outcome {
    if code !in m.rates then Refused(Unknown)
    else if m.base == Some(code) && rate != ONE then Refused(BaseRateFixed)
    else if rate <= 0 then Refused(ConstraintViolated)
    else Committed(RebuiltAll(m.(rates := m.rates[code := rate])))
  }

  function DeleteCurrency(m: Matrix, code: Code, quoted: bool): Outcome {
    if code !in m.rates then Refused(Unknown)
    else if m.base == Some(code) then Refused(BaseNotDeletable)
    else if exists k :: k in m.prices && k.code == code then Refused(StillPriced)
    else if quoted then Refused(StillQuoted)
    else Committed(RebuiltAll(m.(rates := m.rates - {code})))
  }

  function CreateTier(m: Matrix, tier: TierId, percent: int): Outcome {
    if tier in m.tiers || !(0 <= percent <= FULL) then Refused(ConstraintViolated)
    else Committed(RebuiltAll(m.(tiers := m.tiers[tier := percent])))
  }

  function UpdateTier(m: Matrix, tier: TierId, percent: int): Outcome {
    if tier !in m.tiers then Refused(Unknown)
    else if !(0 <= percent <= FULL) then Refused(ConstraintViolated)
    else Committed(RebuiltAll(m.(tiers := m.tiers[tier := percent])))
  }

  function RowsOfTier(m: Matrix, tier: TierId): set<PriceKey> { set k | k in m.prices && k.tier == tier }

  function RowsOfVariant(m: Matrix, variant: VariantId): set<PriceKey> { set k | k in m.prices && k.variant == variant }

  /** The tier's prices go with it (ON DELETE CASCADE). */
  function DeleteTier(m: Matrix, tier: TierId, inUse: bool): Outcome {
    if tier !in m.tiers then Refused(Unknown)
    else if inUse then Refused(StillInUse)
    else Committed(RebuiltAll(m.(tiers := m.tiers - {tier}, prices := m.prices - RowsOfTier(m, tier))))
  }

  /** A generated variant starts unpriced. */
  function AddVariant(m: Matrix, variant: VariantId, product: nat): Outcome {
    if variant in m.variants then Refused(ConstraintViolated)
    else Committed(m.(variants := m.variants[variant := Variant(product, 0, false)]))
  }

  function DropVariant(m: Matrix, variant: VariantId, inUse: bool): Outcome {
    if variant !in m.variants then Refused(Unknown)
    else if inUse then Refused(StillInUse)
    else Committed(m.(variants := m.variants - {variant}, prices := m.prices - RowsOfVariant(m, variant)))
  }

  /** One row of the matrix being saved; `stocked`: a figure for every warehouse asked. */
  datatype SaveRow = SaveRow(variant: VariantId, cost: int, price: int, stocked: bool)

  function RowRefusal(m: Matrix, product: nat, row: SaveRow): Option<Refusal> {
    if row.variant !in m.variants || m.variants[row.variant].product != product then Some(ForeignVariant)
    else if row.cost <= 0 then Some(NoCost)
    else if row.price <= 0 then Some(NoPrice)
    else if !row.stocked then Some(NoStockFigure)
    else None
  }

  function FirstRefusal(m: Matrix, product: nat, rows: seq<SaveRow>): Option<Refusal> {
    if rows == [] then None
    else
      var first := RowRefusal(m, product, rows[0]);
      if first.Some? then first else FirstRefusal(m, product, rows[1..])
  }

  /** The rows in order: the last one for a variant wins. */
  function Typed(variants: map<VariantId, Variant>, rows: seq<SaveRow>): map<VariantId, Variant> {
    if rows == [] then variants
    else
      var row, rest := rows[|rows| - 1], Typed(variants, rows[..|rows| - 1]);
      if row.variant in rest && row.price > 0
      then rest[row.variant := rest[row.variant].(basePrice := row.price, saved := true)]
      else rest
  }

  function NamedIn(rows: seq<SaveRow>): set<VariantId> { set i | 0 <= i < |rows| :: rows[i].variant }

  /** Validated up front.  The rebuild holds the only commit, so when it has nothing to do
      the call answers normally and the typed values are lost with the session. */
  function SaveMatrix(m: Matrix, product: nat, rows: seq<SaveRow>): Outcome {
    var refusal := FirstRefusal(m, product, rows);
    if refusal.Some? then Refused(refusal.value)
    else
      var typed := m.(variants := Typed(m.variants, rows));
      if NothingToRebuild(typed, NamedIn(rows)) then Committed(m) else Committed(Rebuilt(typed, NamedIn(rows)))
  }

  datatype Call =
    | DoCreateCurrency(code: Code, rate: int) | DoUpdateRate(code: Code, rate: int)
    | DoDeleteCurrency(code: Code, quoted: bool)
    | DoCreateTier(tier: TierId, percent: int) | DoUpdateTier(tier: TierId, percent: int)
    | DoDeleteTier(tier: TierId, inUse: bool)
    | DoAddVariant(variant: VariantId, product: nat) | DoDropVariant(variant: VariantId, inUse: bool)
    | DoSave(product: nat, rows: seq<SaveRow>)

  function Attempt(m: Matrix, call: Call): Outcome {
    match call
    case DoCreateCurrency(code, rate) => CreateCurrency(m, code, rate)
    case DoUpdateRate(code, rate) => UpdateRate(m, code, rate)
    case DoDeleteCurrency(code, quoted) => DeleteCurrency(m, code, quoted)
    case DoCreateTier(tier, percent) => CreateTier(m, tier, percent)
    case DoUpdateTier(tier, percent) => UpdateTier(m, tier, percent)
    case DoDeleteTier(tier, inUse) => DeleteTier(m, tier, inUse)
    case DoAddVariant(variant, product) => AddVariant(m, variant, product)
    case DoDropVariant(variant, inUse) => DropVariant(m, variant, inUse)
    case DoSave(product, rows) => SaveMatrix(m, product, rows)
  }

  function After(outcome: Outcome, before: Matrix): Matrix {
    if outcome.Committed? then outcome.value else before
  }

  /** Only the base currency, if there is one. */
  function Opening(base: Option<Code>): Matrix {
    Matrix(base, if base.Some? then map[base.value := ONE] else map[], map[], map[], map[])
  }

  function Run(m: Matrix, calls: seq<Call>): Matrix
    decreases |calls|
  {
    if calls == [] then m else Run(After(Attempt(m, calls[0]), m), calls[1..])
  }

  // ------------------------------------------------------------- invariant

  ghost predicate Complete(m: Matrix, v: VariantId) {
    forall t, c :: t in m.tiers && c in m.rates ==> PriceKey(v, t, c) in m.prices
  }

  ghost predicate Unpriced(m: Matrix, v: VariantId) { forall k :: k in m.prices ==> k.variant != v }

  /** Every row names live parts and equals its formula, a variant has all its rows or none,
      and a saved one has them all. */
  ghost predicate Valid(m: Matrix) {
    && (m.base.Some? ==> m.base.value in m.rates && m.rates[m.base.value] == ONE)
    && (forall k :: k in m.prices ==> HasBase(m) && Live(m, k) && m.prices[k] == PriceOf(m, k))
    && (forall v :: v in m.variants ==> Complete(m, v) || Unpriced(m, v))
    && (forall v :: v in m.variants && m.variants[v].saved ==> HasBase(m) && Complete(m, v))
  }

  /** A rebuild of everything makes the table valid whatever changed, as long as rows and
      saved variants only exist where there is a base. */
  lemma RebuildAllIsValid(m: Matrix)
    requires m.base.Some? ==> m.base.value in m.rates && m.rates[m.base.value] == ONE
    requires forall k :: k in m.prices ==> HasBase(m) && k.variant in m.variants && k.tier in m.tiers
    requires forall v :: v in m.variants && m.variants[v].saved ==> HasBase(m)
    ensures Valid(RebuiltAll(m))
    ensures HasBase(m) ==> forall v :: v in m.variants ==> Complete(RebuiltAll(m), v)
  {
    var e := RebuiltAll(m);
    if NothingToRebuild(m, m.variants.Keys) {
      assert m.variants.Keys * m.variants.Keys == m.variants.Keys;
      assert m.prices == map[];
    } else {
      assert forall k :: k in e.prices ==> Live(m, k) && e.prices[k] == PriceOf(m, k);
      forall v | v in m.variants ensures Complete(e, v) {
        forall t, c | t in m.tiers && c in m.rates ensures PriceKey(v, t, c) in e.prices {
          assert PriceKey(v, t, c) in Cells(m.variants.Keys * m.variants.Keys, m.tiers.Keys, m.rates.Keys);
        }
      }
    }
  }

  lemma {:induction false} TypedKeeps(variants: map<VariantId, Variant>, rows: seq<SaveRow>)
    ensures var typed := Typed(variants, rows);
            && typed.Keys == variants.Keys
            && (forall v :: v in variants && v !in NamedIn(rows) ==> typed[v] == variants[v])
            && (forall v :: v in variants ==> typed[v].product == variants[v].product)
  {
    if rows != [] {
      TypedKeeps(variants, rows[..|rows| - 1]);
      forall v | v in variants && v !in NamedIn(rows) ensures Typed(variants, rows)[v] == variants[v] {
        assert rows[|rows| - 1].variant in NamedIn(rows);
        assert v !in NamedIn(rows[..|rows| - 1]) by {
          assert forall i :: 0 <= i < |rows| - 1 ==> rows[..|rows| - 1][i] == rows[i];
        }
      }
    }
  }

  /** Rebuilding some variants after changing only their base prices keeps the rest. */
  lemma {:induction false} PartialRebuildIsValid(m: Matrix, typed: Matrix, ids: set<VariantId>)
    requires Valid(m) && typed == m.(variants := typed.variants) && typed.variants.Keys == m.variants.Keys
    requires forall v :: v in m.variants && v !in ids ==> typed.variants[v] == m.variants[v]
    requires !NothingToRebuild(typed, ids)
    ensures Valid(Rebuilt(typed, ids))
  {
    var e, live := Rebuilt(typed, ids), ids * typed.variants.Keys;
    var cells := Cells(live, typed.tiers.Keys, typed.rates.Keys);
    forall k | k in e.prices ensures Live(e, k) && e.prices[k] == PriceOf(e, k) {
      if k !in cells {
        assert k in m.prices && k.variant !in ids;
        assert PriceOf(m, k) == PriceOf(e, k);
      }
    }
    forall v | v in e.variants ensures Complete(e, v) || Unpriced(e, v) {
      if v in ids { RebuiltComplete(typed, ids, v); } else { UntouchedRows(m, typed, ids, v); }
    }
    forall v | v in e.variants && e.variants[v].saved ensures Complete(e, v) {
      if v in ids { RebuiltComplete(typed, ids, v); } else { UntouchedRows(m, typed, ids, v); }
    }
  }

  lemma RebuiltComplete(m: Matrix, ids: set<VariantId>, v: VariantId)
    requires !NothingToRebuild(m, ids) && v in ids && v in m.variants
    ensures Complete(Rebuilt(m, ids), v)
  {
    var e := Rebuilt(m, ids);
    forall t, c | t in m.tiers && c in m.rates ensures PriceKey(v, t, c) in e.prices {
      assert PriceKey(v, t, c) in Cells(ids * m.variants.Keys, m.tiers.Keys, m.rates.Keys);
    }
  }

  lemma UntouchedRows(m: Matrix, typed: Matrix, ids: set<VariantId>, v: VariantId)
    requires typed == m.(variants := typed.variants) && !NothingToRebuild(typed, ids) && v !in ids
    ensures Complete(m, v) ==> Complete(Rebuilt(typed, ids), v)
    ensures Unpriced(m, v) ==> Unpriced(Rebuilt(typed, ids), v)
  {
    var e := Rebuilt(typed, ids);
    assert forall k: PriceKey :: k.variant == v ==> (k in e.prices <==> k in m.prices);
  }

  lemma {:induction false} CallKeepsValid(m: Matrix, call: Call)
    requires Valid(m)
    ensures Valid(After(Attempt(m, call), m))
  {
    if Attempt(m, call).Committed? {
      match call
      case DoCreateCurrency(code, rate) => RebuildAllIsValid(m.(rates := m.rates[code := rate]));
      case DoUpdateRate(code, rate) => RebuildAllIsValid(m.(rates := m.rates[code := rate]));
      case DoDeleteCurrency(code, quoted) => RebuildAllIsValid(m.(rates := m.rates - {code}));
      case DoCreateTier(tier, percent) => RebuildAllIsValid(m.(tiers := m.tiers[tier := percent]));
      case DoUpdateTier(tier, percent) => RebuildAllIsValid(m.(tiers := m.tiers[tier := percent]));
      case DoDeleteTier(tier, inUse) =>
        RebuildAllIsValid(m.(tiers := m.tiers - {tier}, prices := m.prices - RowsOfTier(m, tier)));
      case DoAddVariant(variant, product) => AddedIsValid(m, variant, product);
      case DoDropVariant(variant, inUse) => DroppedIsValid(m, variant, inUse);
      case DoSave(product, rows) =>
        var typed := m.(variants := Typed(m.variants, rows));
        TypedKeeps(m.variants, rows);
        if !NothingToRebuild(typed, NamedIn(rows)) { PartialRebuildIsValid(m, typed, NamedIn(rows)); }
    }
  }

  lemma AddedIsValid(m: Matrix, variant: VariantId, product: nat)
    requires Valid(m)
    ensures Valid(After(AddVariant(m, variant, product), m))
  {
    if variant !in m.variants {
      var e := AddVariant(m, variant, product).value;
      assert forall k :: k in e.prices ==> PriceOf(e, k) == PriceOf(m, k);
      forall v | v in e.variants ensures Complete(e, v) || Unpriced(e, v) {
        if v != variant && Complete(m, v) { assert Complete(e, v); }
      }
      forall v | v in e.variants && e.variants[v].saved ensures Complete(e, v) { assert Complete(m, v); }
    }
  }

  lemma DroppedIsValid(m: Matrix, variant: VariantId, inUse: bool)
    requires Valid(m)
    ensures Valid(After(DropVariant(m, variant, inUse), m))
  {
    if DropVariant(m, variant, inUse).Committed? {
      var e := DropVariant(m, variant, inUse).value;
      assert forall k :: k in e.prices ==> PriceOf(e, k) == PriceOf(m, k);
      forall v | v in e.variants ensures (Complete(m, v) ==> Complete(e, v)) && (Unpriced(m, v) ==> Unpriced(e, v)) {
      }
    }
  }

  lemma {:induction false} RunKeepsValid(m: Matrix, calls: seq<Call>)
    requires Valid(m)
    ensures Valid(Run(m, calls))
    decreases |calls|
  {
    if calls != [] {
      CallKeepsValid(m, calls[0]);
      RunKeepsValid(After(Attempt(m, calls[0]), m), calls[1..]);
    }
  }

  /** The price matrix equals its formula after every run of catalog operations. */
  lemma MatrixEqualsFormula(base: Option<Code>, calls: seq<Call>)
    ensures Valid(Run(Opening(base), calls))
  {
    RunKeepsValid(Opening(base), calls);
  }

  // --------------------------------------------------------- what is saved

  lemma {:induction false} AcceptedRowsAreTyped(m: Matrix, product: nat, rows: seq<SaveRow>)
    requires FirstRefusal(m, product, rows).None?
    ensures forall i :: 0 <= i < |rows| ==> RowRefusal(m, product, rows[i]).None?
  {
    if rows != [] {
      AcceptedRowsAreTyped(m, product, rows[1..]);
      forall i | 0 <= i < |rows| ensures RowRefusal(m, product, rows[i]).None? {
        if i > 0 { assert rows[i] == rows[1..][i - 1]; }
      }
    }
  }

  predicate LastFor(rows: seq<SaveRow>, i: nat) {
    i < |rows| && forall j :: i < j < |rows| ==> rows[j].variant != rows[i].variant
  }

  lemma {:induction false} TypedValue(variants: map<VariantId, Variant>, rows: seq<SaveRow>, i: nat)
    requires LastFor(rows, i) && rows[i].variant in variants && rows[i].price > 0
    ensures Typed(variants, rows).Keys == variants.Keys
    ensures Typed(variants, rows)[rows[i].variant].basePrice == rows[i].price
            && Typed(variants, rows)[rows[i].variant].saved
  {
    TypedKeeps(variants, rows);
    TypedKeeps(variants, rows[..|rows| - 1]);
    if i < |rows| - 1 {
      assert rows[..|rows| - 1][i] == rows[i] && LastFor(rows[..|rows| - 1], i);
      TypedValue(variants, rows[..|rows| - 1], i);
    }
  }

  /** What an accepted save types for a new price is kept, and priced for every tier and
      currency, if and only if there are a base currency and a tier: without either the call
      answers normally and changes nothing. */
  lemma SaveIsKeptIff(m: Matrix, product: nat, rows: seq<SaveRow>, i: nat)
    requires FirstRefusal(m, product, rows).None? && LastFor(rows, i)
    ensures SaveMatrix(m, product, rows).Committed?
    ensures var e, row := SaveMatrix(m, product, rows).value, rows[i];
            && row.variant in m.variants && row.variant in e.variants
            && (m.variants[row.variant].basePrice != row.price ==>
                  (e.variants[row.variant].basePrice == row.price <==> HasBase(m) && m.tiers != map[]))
            && (HasBase(m) && m.tiers != map[] ==> e.variants[row.variant].saved && Complete(e, row.variant))
            && (!(HasBase(m) && m.tiers != map[]) ==> e == m)
  {
    AcceptedRowsAreTyped(m, product, rows);
    assert RowRefusal(m, product, rows[i]).None?;
    TypedValue(m.variants, rows, i);
    var row, typed := rows[i], m.(variants := Typed(m.variants, rows));
    assert row.variant in NamedIn(rows) && row.variant in NamedIn(rows) * typed.variants.Keys;
    if HasBase(m) && m.tiers != map[] { RebuiltComplete(typed, NamedIn(rows), row.variant); }
  }
}
