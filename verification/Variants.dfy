/** Generating a product's variants from its attribute axes. */
module Variants {
  import opened Outcomes
  import opened Skus

  type Options = map<string, string>

  datatype Axis = Axis(name: string, values: seq<string>)

  datatype Row = Row(sku: string, name: string, options: Options, isDefault: bool)

  datatype Refusal = UnknownProduct | ProductExists | AxisNameTaken | DefaultInUse | NameTaken

  // ---------------------------------------------------------- combinations

  function Prepend(value: string, combos: seq<seq<string>>): seq<seq<string>> {
    seq(|combos|, i requires 0 <= i < |combos| => [value] + combos[i])
  }

  function Extend(values: seq<string>, combos: seq<seq<string>>): seq<seq<string>> {
    if values == [] then [] else Prepend(values[0], combos) + Extend(values[1..], combos)
  }

  /** itertools.product: the last axis varies fastest. */
  function Cartesian(axes: seq<seq<string>>): seq<seq<string>> {
    if axes == [] then [[]] else Extend(axes[0], Cartesian(axes[1..]))
  }

  /** One value from each axis. */
  predicate Fits(axes: seq<seq<string>>, combo: seq<string>) {
    |combo| == |axes| && forall i :: 0 <= i < |axes| ==> combo[i] in axes[i]
  }

  ghost predicate Distinct<T>(s: seq<T>) { forall i, j :: 0 <= i < j < |s| ==> s[i] != s[j] }

  lemma {:induction false} ExtendIsAll(values: seq<string>, combos: seq<seq<string>>, combo: seq<string>)
    ensures combo in Extend(values, combos) <==> combo != [] && combo[0] in values && combo[1..] in combos
  {
    if values != [] {
      ExtendIsAll(values[1..], combos, combo);
      var first := Prepend(values[0], combos);
      assert combo in first <==> combo != [] && combo[0] == values[0] && combo[1..] in combos by {
        if combo != [] && combo[0] == values[0] && combo[1..] in combos {
          var i :| 0 <= i < |combos| && combos[i] == combo[1..];
          assert first[i] == combo;
        }
        if combo in first {
          var i :| 0 <= i < |first| && first[i] == combo;
          assert combo[1..] == combos[i];
        }
      }
    }
  }

  /** The product lists exactly the combinations of one value per axis. */
  lemma {:induction false} CartesianIsAll(axes: seq<seq<string>>, combo: seq<string>)
    ensures combo in Cartesian(axes) <==> Fits(axes, combo)
  {
    if axes != [] {
      ExtendIsAll(axes[0], Cartesian(axes[1..]), combo);
      if combo != [] {
        CartesianIsAll(axes[1..], combo[1..]);
        if Fits(axes, combo) {
          assert forall i :: 0 <= i < |axes| - 1 ==> combo[1..][i] == combo[i + 1] && axes[1..][i] == axes[i + 1];
        }
        if combo[0] in axes[0] && Fits(axes[1..], combo[1..]) {
          forall i | 0 <= i < |axes| ensures combo[i] in axes[i] {
            if i > 0 { assert combo[1..][i - 1] in axes[1..][i - 1]; }
          }
        }
      }
    }
  }

  lemma {:induction false} ExtendDistinct(values: seq<string>, combos: seq<seq<string>>)
    requires Distinct(values) && Distinct(combos)
    ensures Distinct(Extend(values, combos)) && |Extend(values, combos)| == |values| * |combos|
  {
    if values != [] {
      var first, rest := Prepend(values[0], combos), Extend(values[1..], combos);
      ExtendDistinct(values[1..], combos);
      forall i, j | 0 <= i < j < |first| ensures first[i] != first[j] {
        assert first[i][1..] == combos[i] && first[j][1..] == combos[j];
      }
      forall i, j | 0 <= i < |first| && 0 <= j < |rest| ensures first[i] != rest[j] {
        assert rest[j] in rest;
        ExtendIsAll(values[1..], combos, rest[j]);
      }
    }
  }

  function Multiplied(sizes: seq<nat>): nat { if sizes == [] then 1 else sizes[0] * Multiplied(sizes[1..]) }

  function Sizes(axes: seq<seq<string>>): seq<nat> { seq(|axes|, i requires 0 <= i < |axes| => |axes[i]|) }

  /** Each once, so there are as many as the axes' sizes multiply to. */
  lemma {:induction false} CartesianDistinct(axes: seq<seq<string>>)
    requires forall i :: 0 <= i < |axes| ==> Distinct(axes[i])
    ensures Distinct(Cartesian(axes)) && |Cartesian(axes)| == Multiplied(Sizes(axes))
  {
    if axes != [] {
      CartesianDistinct(axes[1..]);
      ExtendDistinct(axes[0], Cartesian(axes[1..]));
      assert Sizes(axes)[1..] == Sizes(axes[1..]);
    }
  }

  // --------------------------------------------------------------- options

  /** dict(zip(names, combination)). */
  function Zip(names: seq<string>, combo: seq<string>): Options
    requires |names| == |combo|
  {
    if names == [] then map[]
    else Zip(names[..|names| - 1], combo[..|combo| - 1])[names[|names| - 1] := combo[|combo| - 1]]
  }

  lemma {:induction false} ZipValues(names: seq<string>, combo: seq<string>)
    requires |names| == |combo| && Distinct(names)
    ensures forall i :: 0 <= i < |names| ==> names[i] in Zip(names, combo) && Zip(names, combo)[names[i]] == combo[i]
  {
    if names != [] { ZipValues(names[..|names| - 1], combo[..|combo| - 1]); }
  }

  /** Different combinations are different options. */
  lemma ZipInjective(names: seq<string>, a: seq<string>, b: seq<string>)
    requires |names| == |a| == |b| && Distinct(names) && Zip(names, a) == Zip(names, b)
    ensures a == b
  {
    ZipValues(names, a);
    ZipValues(names, b);
    forall i | 0 <= i < |names| ensures a[i] == b[i] {
      assert Zip(names, a)[names[i]] == a[i];
    }
  }

  // ------------------------------------------------------------------ rows

  function Join(separator: string, parts: seq<string>): string {
    if parts == [] then []
    else if |parts| == 1 then parts[0]
    else parts[0] + separator + Join(separator, parts[1..])
  }

  function Slugs(values: seq<string>): seq<string> { seq(|values|, i requires 0 <= i < |values| => Slug(values[i])) }

  function SkuBase(product: string, combo: seq<string>): string { Join("-", [Slug(product)] + Slugs(combo)) }

  function SkusOf(rows: seq<Row>): set<string> { set i | 0 <= i < |rows| :: rows[i].sku }

  predicate HasOptions(rows: seq<Row>, options: Options) { exists i :: 0 <= i < |rows| && rows[i].options == options }

  function NewRow(product: string, names: seq<string>, combo: seq<string>, used: set<string>): Row
    requires |names| == |combo|
  {
    Row(UniqueSku(SkuBase(product, combo), used), Join(" / ", combo), Zip(names, combo), false)
  }

  /** The rows, followed by a new one for each combination that has none. */
  function Mint(
      product: string, names: seq<string>, combos: seq<seq<string>>, rows: seq<Row>, foreign: set<string>): seq<Row>
    requires forall i :: 0 <= i < |combos| ==> |combos[i]| == |names|
  {
    if combos == [] then rows
    else
      var sofar, combo := Mint(product, names, combos[..|combos| - 1], rows, foreign), combos[|combos| - 1];
      if HasOptions(sofar, Zip(names, combo)) then sofar
      else sofar + [NewRow(product, names, combo, foreign + SkusOf(sofar))]
  }

  predicate Stray(row: Row) { row.isDefault && row.options == map[] }

  /** Without the default row a product with real variants must not keep. */
  function Kept(rows: seq<Row>): seq<Row> {
    if rows == [] then []
    else if Stray(rows[|rows| - 1]) then Kept(rows[..|rows| - 1])
    else Kept(rows[..|rows| - 1]) + [rows[|rows| - 1]]
  }

  function LiveAxes(axes: seq<Axis>): seq<Axis> {
    if axes == [] then []
    else if axes[|axes| - 1].values == [] then LiveAxes(axes[..|axes| - 1])
    else LiveAxes(axes[..|axes| - 1]) + [axes[|axes| - 1]]
  }

  function Names(axes: seq<Axis>): seq<string> { seq(|axes|, i requires 0 <= i < |axes| => axes[i].name) }

  function Values(axes: seq<Axis>): seq<seq<string>> { seq(|axes|, i requires 0 <= i < |axes| => axes[i].values) }

  lemma CombosFit(axes: seq<Axis>)
    ensures forall i :: 0 <= i < |Cartesian(Values(axes))| ==> |Cartesian(Values(axes))[i]| == |Names(axes)|
  {
    forall i | 0 <= i < |Cartesian(Values(axes))| ensures |Cartesian(Values(axes))[i]| == |Names(axes)| {
      assert Cartesian(Values(axes))[i] in Cartesian(Values(axes));
      CartesianIsAll(Values(axes), Cartesian(Values(axes))[i]);
    }
  }

  function Generated(product: string, axes: seq<Axis>, rows: seq<Row>, foreign: set<string>): seq<Row> {
    CombosFit(axes);
    Mint(product, Names(axes), Cartesian(Values(axes)), Kept(rows), foreign)
  }

  // ------------------------------------------------------ what rows keep

  /** UNIQUE(sku) over the whole catalog, one row per options payload, and the default row
      is the one without options. */
  ghost predicate RowsValid(rows: seq<Row>, foreign: set<string>) {
    && (forall i, j :: 0 <= i < j < |rows| ==> rows[i].sku != rows[j].sku && rows[i].options != rows[j].options)
    && (forall i :: 0 <= i < |rows| ==> rows[i].sku !in foreign && (rows[i].isDefault <==> rows[i].options == map[]))
  }

  lemma {:induction false} KeptRow(rows: seq<Row>, row: Row)
    ensures row in Kept(rows) <==> row in rows && !Stray(row)
  {
    if rows != [] {
      KeptRow(rows[..|rows| - 1], row);
      assert rows == rows[..|rows| - 1] + [rows[|rows| - 1]];
    }
  }

  lemma KeptRows(rows: seq<Row>, foreign: set<string>)
    requires RowsValid(rows, foreign)
    ensures forall row :: row in Kept(rows) <==> row in rows && !row.isDefault
  {
    forall row ensures row in Kept(rows) <==> row in rows && !row.isDefault {
      KeptRow(rows, row);
    }
  }

  lemma AppendedIsValid(rows: seq<Row>, row: Row, foreign: set<string>)
    requires RowsValid(rows, foreign) && !HasOptions(rows, row.options)
    requires row.sku !in foreign + SkusOf(rows) && (row.isDefault <==> row.options == map[])
    ensures RowsValid(rows + [row], foreign)
  {
    assert forall i :: 0 <= i < |rows| ==> rows[i].sku in SkusOf(rows);
  }

  lemma {:induction false} KeptIsValid(rows: seq<Row>, foreign: set<string>)
    requires RowsValid(rows, foreign)
    ensures RowsValid(Kept(rows), foreign)
  {
    if rows != [] {
      var front, last := rows[..|rows| - 1], rows[|rows| - 1];
      KeptIsValid(front, foreign);
      KeptRows(front, foreign);
      if !Stray(last) {
        var kept := Kept(front);
        forall i | 0 <= i < |kept| ensures kept[i].sku != last.sku && kept[i].options != last.options {
          assert kept[i] in front;
        }
        AppendedIsValid(kept, last, foreign);
      }
    }
  }

  lemma {:induction false} MintPrefix(
      product: string, names: seq<string>, combos: seq<seq<string>>, rows: seq<Row>, foreign: set<string>)
    requires forall i :: 0 <= i < |combos| ==> |combos[i]| == |names|
    ensures rows <= Mint(product, names, combos, rows, foreign)
  {
    if combos != [] { MintPrefix(product, names, combos[..|combos| - 1], rows, foreign); }
  }

  lemma {:induction false} MintIsValid(
      product: string, names: seq<string>, combos: seq<seq<string>>, rows: seq<Row>, foreign: set<string>)
    requires forall i :: 0 <= i < |combos| ==> |combos[i]| == |names|
    requires names != [] && Distinct(names) && RowsValid(rows, foreign)
    ensures RowsValid(Mint(product, names, combos, rows, foreign), foreign)
  {
    if combos != [] {
      var front, combo := combos[..|combos| - 1], combos[|combos| - 1];
      var sofar := Mint(product, names, front, rows, foreign);
      MintIsValid(product, names, front, rows, foreign);
      if !HasOptions(sofar, Zip(names, combo)) {
        ZipValues(names, combo);
        assert names[0] in Zip(names, combo);
        UniqueSkuIsFree(SkuBase(product, combo), foreign + SkusOf(sofar));
        AppendedIsValid(sofar, NewRow(product, names, combo, foreign + SkusOf(sofar)), foreign);
      }
    }
  }

  lemma HasOptionsGrows(rows: seq<Row>, more: seq<Row>, options: Options)
    requires HasOptions(rows, options) && rows <= more
    ensures HasOptions(more, options)
  {
    var i :| 0 <= i < |rows| && rows[i].options == options;
    assert more[i] == rows[i];
  }

  lemma {:induction false} MintCovers(
      product: string, names: seq<string>, combos: seq<seq<string>>, rows: seq<Row>, foreign: set<string>, k: nat)
    requires forall i :: 0 <= i < |combos| ==> |combos[i]| == |names|
    requires k < |combos|
    ensures HasOptions(Mint(product, names, combos, rows, foreign), Zip(names, combos[k]))
  {
    var front, combo := combos[..|combos| - 1], combos[|combos| - 1];
    var sofar, minted := Mint(product, names, front, rows, foreign), Mint(product, names, combos, rows, foreign);
    if k < |front| {
      assert combos[k] == front[k];
      MintCovers(product, names, front, rows, foreign, k);
      HasOptionsGrows(sofar, minted, Zip(names, combos[k]));
    } else if !HasOptions(sofar, Zip(names, combo)) {
      assert minted[|sofar|].options == Zip(names, combo);
    }
  }

  predicate MadeFrom(row: Row, names: seq<string>, combo: seq<string>) {
    && |names| == |combo| && !row.isDefault
    && row.options == Zip(names, combo) && row.name == Join(" / ", combo)
  }

  lemma {:induction false} MintAddsCombos(
      product: string, names: seq<string>, combos: seq<seq<string>>, rows: seq<Row>, foreign: set<string>, i: nat)
      returns (k: nat)
    requires forall j :: 0 <= j < |combos| ==> |combos[j]| == |names|
    requires |rows| <= i < |Mint(product, names, combos, rows, foreign)|
    ensures k < |combos| && MadeFrom(Mint(product, names, combos, rows, foreign)[i], names, combos[k])
  {
    var front := combos[..|combos| - 1];
    if i < |Mint(product, names, front, rows, foreign)| {
      k := MintAddsCombos(product, names, front, rows, foreign, i);
      assert combos[k] == front[k];
    } else {
      k := |combos| - 1;
    }
  }

  lemma {:induction false} MintIdle(
      product: string, names: seq<string>, combos: seq<seq<string>>, rows: seq<Row>, foreign: set<string>)
    requires forall i :: 0 <= i < |combos| ==> |combos[i]| == |names|
    requires forall i :: 0 <= i < |combos| ==> HasOptions(rows, Zip(names, combos[i]))
    ensures Mint(product, names, combos, rows, foreign) == rows
  {
    if combos != [] { MintIdle(product, names, combos[..|combos| - 1], rows, foreign); }
  }

  /** Exactly one row carries these options. */
  ghost predicate OneRow(rows: seq<Row>, options: Options) {
    HasOptions(rows, options) &&
    forall i, j :: 0 <= i < |rows| && 0 <= j < |rows| && rows[i].options == options && rows[j].options == options ==>
      i == j
  }

  /** What generation may have added: a variant of a combination no kept row had. */
  ghost predicate Added(row: Row, axes: seq<Axis>, kept: seq<Row>) {
    !HasOptions(kept, row.options) && exists combo :: Fits(Values(axes), combo) && MadeFrom(row, Names(axes), combo)
  }

  lemma GeneratedCovers(product: string, axes: seq<Axis>, rows: seq<Row>, foreign: set<string>, combo: seq<string>)
    requires Fits(Values(axes), combo)
    ensures HasOptions(Generated(product, axes, rows, foreign), Zip(Names(axes), combo))
  {
    var combos := Cartesian(Values(axes));
    CombosFit(axes);
    CartesianIsAll(Values(axes), combo);
    var k :| 0 <= k < |combos| && combos[k] == combo;
    MintCovers(product, Names(axes), combos, Kept(rows), foreign, k);
  }

  lemma GeneratedAdds(product: string, axes: seq<Axis>, rows: seq<Row>, foreign: set<string>, i: nat)
    requires RowsValid(Generated(product, axes, rows, foreign), foreign)
    requires |Kept(rows)| <= i < |Generated(product, axes, rows, foreign)|
    ensures Added(Generated(product, axes, rows, foreign)[i], axes, Kept(rows))
  {
    var combos, final, kept := Cartesian(Values(axes)), Generated(product, axes, rows, foreign), Kept(rows);
    CombosFit(axes);
    MintPrefix(product, Names(axes), combos, kept, foreign);
    var k := MintAddsCombos(product, Names(axes), combos, kept, foreign, i);
    assert combos[k] in combos;
    CartesianIsAll(Values(axes), combos[k]);
    forall j | 0 <= j < |kept| ensures kept[j].options != final[i].options {
      assert kept[j] == final[j];
    }
  }

  /** Generation leaves exactly one variant per combination, keeps every earlier variant but
      the default in place and unchanged, adds nothing but missing combinations and keeps
      all SKUs distinct. */
  lemma GenerateIsExact(product: string, axes: seq<Axis>, rows: seq<Row>, foreign: set<string>)
    requires axes != [] && Distinct(Names(axes)) && RowsValid(rows, foreign)
    ensures var final := Generated(product, axes, rows, foreign);
            && RowsValid(final, foreign) && Kept(rows) <= final
            && (forall row :: row in Kept(rows) <==> row in rows && !row.isDefault)
            && (forall combo :: Fits(Values(axes), combo) ==> OneRow(final, Zip(Names(axes), combo)))
            && (forall i :: |Kept(rows)| <= i < |final| ==> Added(final[i], axes, Kept(rows)))
  {
    var names, combos, final := Names(axes), Cartesian(Values(axes)), Generated(product, axes, rows, foreign);
    CombosFit(axes);
    KeptRows(rows, foreign);
    KeptIsValid(rows, foreign);
    MintPrefix(product, names, combos, Kept(rows), foreign);
    MintIsValid(product, names, combos, Kept(rows), foreign);
    forall combo | Fits(Values(axes), combo) ensures OneRow(final, Zip(names, combo)) {
      GeneratedCovers(product, axes, rows, foreign, combo);
    }
    forall i | |Kept(rows)| <= i < |final| ensures Added(final[i], axes, Kept(rows)) {
      GeneratedAdds(product, axes, rows, foreign, i);
    }
  }

  /** Run again, it adds nothing. */
  lemma GenerateIsIdempotent(product: string, axes: seq<Axis>, rows: seq<Row>, foreign: set<string>)
    requires axes != [] && Distinct(Names(axes)) && RowsValid(rows, foreign)
    ensures var final := Generated(product, axes, rows, foreign); Generated(product, axes, final, foreign) == final
  {
    var combos, final := Cartesian(Values(axes)), Generated(product, axes, rows, foreign);
    CombosFit(axes);
    GenerateIsExact(product, axes, rows, foreign);
    forall i | 0 <= i < |final| ensures !final[i].isDefault {
      if i < |Kept(rows)| { assert final[i] in Kept(rows); }
    }
    NoDefaultKept(final);
    forall k | 0 <= k < |combos| ensures HasOptions(final, Zip(Names(axes), combos[k])) {
      MintCovers(product, Names(axes), combos, Kept(rows), foreign, k);
    }
    MintIdle(product, Names(axes), combos, final, foreign);
  }

  lemma {:induction false} NoDefaultKept(rows: seq<Row>)
    requires forall i :: 0 <= i < |rows| ==> !rows[i].isDefault
    ensures Kept(rows) == rows
  {
    if rows != [] {
      NoDefaultKept(rows[..|rows| - 1]);
      assert rows == rows[..|rows| - 1] + [rows[|rows| - 1]];
    }
  }

  // --------------------------------------------------------- the catalog

  /** One product: its title, its axes and its variants. */
  datatype Listing = Listing(title: string, axes: seq<Axis>, rows: seq<Row>)

  type Catalog = map<nat, Listing>

  type Outcome = Result<Catalog, Refusal>

  predicate IsSpace(c: char) { c == ' ' || c == '\t' || c == '\n' || c == '\r' }

  function Strip(s: string): string {
    if s != [] && IsSpace(s[0]) then Strip(s[1..])
    else if s != [] && IsSpace(s[|s| - 1]) then Strip(s[..|s| - 1])
    else s
  }

  /** Stripped, without blanks and repetitions. */
  function Cleaned(values: seq<string>): seq<string> {
    if values == [] then []
    else
      var front, value := Cleaned(values[..|values| - 1]), Strip(values[|values| - 1]);
      if value == [] || value in front then front else front + [value]
  }

  lemma {:induction false} CleanedIsDistinct(values: seq<string>)
    ensures Distinct(Cleaned(values))
    ensures forall v :: v in Cleaned(values) <==> v != [] && exists i :: 0 <= i < |values| && Strip(values[i]) == v
  {
    if values != [] {
      var front := values[..|values| - 1];
      CleanedIsDistinct(front);
      forall v | v in Cleaned(values) ensures v != [] && exists i :: 0 <= i < |values| && Strip(values[i]) == v {
        if v in Cleaned(front) {
          var i :| 0 <= i < |front| && Strip(front[i]) == v;
          assert values[i] == front[i];
        }
      }
      forall v, i | v != [] && 0 <= i < |values| && Strip(values[i]) == v ensures v in Cleaned(values) {
        if i < |front| { assert front[i] == values[i]; }
      }
    }
  }

  function CleanAxes(axes: seq<Axis>): seq<Axis> {
    seq(|axes|, i requires 0 <= i < |axes| => Axis(Strip(axes[i].name), Cleaned(axes[i].values)))
  }

  predicate Clash(names: seq<string>) { exists i, j :: 0 <= i < j < |names| && names[i] == names[j] }

  function RowNames(rows: seq<Row>): seq<string> { seq(|rows|, i requires 0 <= i < |rows| => rows[i].name) }

  /** The SKUs of every other product. */
  function Foreign(catalog: Catalog, id: nat): set<string> {
    set q, i | q in catalog && q != id && 0 <= i < |catalog[q].rows| :: catalog[q].rows[i].sku
  }

  predicate HasDefault(rows: seq<Row>) { exists i :: 0 <= i < |rows| && rows[i].isDefault }

  function DefaultRow(title: string, used: set<string>): Row {
    Row(UniqueSku(Join("-", [Slug(title), "STD"]), used), "Default", map[], true)
  }

  function WithDefault(title: string, rows: seq<Row>, foreign: set<string>): seq<Row> {
    if HasDefault(rows) then rows else rows + [DefaultRow(title, foreign + SkusOf(rows))]
  }

  /** The rows after Generate Variants: no live axis asks for the default only. */
  function NextRows(listing: Listing, foreign: set<string>): seq<Row> {
    var axes := LiveAxes(listing.axes);
    if axes == [] then WithDefault(listing.title, listing.rows, foreign)
    else Generated(listing.title, axes, listing.rows, foreign)
  }

  /** UNIQUE(product_id, name). */
  function Stored(catalog: Catalog, id: nat, listing: Listing): Outcome {
    if Clash(RowNames(listing.rows)) then Refused(NameTaken) else Committed(catalog[id := listing])
  }

  function Create(catalog: Catalog, id: nat, title: string, axes: seq<Axis>): Outcome {
    if id in catalog then Refused(ProductExists)
    else if Clash(Names(CleanAxes(axes))) then Refused(AxisNameTaken)
    else
      var listing := Listing(title, CleanAxes(axes), []);
      Stored(catalog, id, listing.(rows := NextRows(listing, Foreign(catalog, id))))
  }

  /** Existing variants are left alone; a product without variants gets its default. */
  function SetAxes(catalog: Catalog, id: nat, axes: seq<Axis>, hasVariants: bool): Outcome {
    if id !in catalog then Refused(UnknownProduct)
    else if Clash(Names(CleanAxes(axes))) then Refused(AxisNameTaken)
    else
      var listing := catalog[id].(axes := CleanAxes(axes));
      if hasVariants then Committed(catalog[id := listing])
      else Stored(catalog, id, listing.(rows := WithDefault(listing.title, listing.rows, Foreign(catalog, id))))
  }

  /** `defaultInUse`: a quotation line or an allocation still points at the default row. */
  function Generate(catalog: Catalog, id: nat, defaultInUse: bool): Outcome {
    if id !in catalog then Refused(UnknownProduct)
    else
      var listing := catalog[id];
      if LiveAxes(listing.axes) != [] && defaultInUse && |Kept(listing.rows)| < |listing.rows|
      then Refused(DefaultInUse)
      else Stored(catalog, id, listing.(rows := NextRows(listing, Foreign(catalog, id))))
  }

  datatype Call =
    | DoCreate(id: nat, title: string, axes: seq<Axis>)
    | DoSetAxes(id: nat, axes: seq<Axis>, hasVariants: bool)
    | DoGenerate(id: nat, defaultInUse: bool)

  function Attempt(catalog: Catalog, call: Call): Outcome {
    match call
    case DoCreate(id, title, axes) => Create(catalog, id, title, axes)
    case DoSetAxes(id, axes, hasVariants) => SetAxes(catalog, id, axes, hasVariants)
    case DoGenerate(id, defaultInUse) => Generate(catalog, id, defaultInUse)
  }

  function After(outcome: Outcome, before: Catalog): Catalog {
    if outcome.Committed? then outcome.value else before
  }

  function Run(catalog: Catalog, calls: seq<Call>): Catalog
    decreases |calls|
  {
    if calls == [] then catalog else Run(After(Attempt(catalog, calls[0]), catalog), calls[1..])
  }

  ghost predicate ListingValid(listing: Listing, foreign: set<string>) {
    && RowsValid(listing.rows, foreign) && !Clash(RowNames(listing.rows)) && !Clash(Names(listing.axes))
    && forall i :: 0 <= i < |listing.axes| ==> Distinct(listing.axes[i].values)
  }

  ghost predicate CatalogValid(catalog: Catalog) {
    forall id :: id in catalog ==> ListingValid(catalog[id], Foreign(catalog, id))
  }

  lemma ForeignUntouched(catalog: Catalog, id: nat, listing: Listing)
    ensures Foreign(catalog[id := listing], id) == Foreign(catalog, id)
  {
    var next := catalog[id := listing];
    forall sku | sku in Foreign(next, id) ensures sku in Foreign(catalog, id) {
      var q, i :| q in next && q != id && 0 <= i < |next[q].rows| && next[q].rows[i].sku == sku;
      assert catalog[q].rows[i].sku == sku;
    }
    forall sku | sku in Foreign(catalog, id) ensures sku in Foreign(next, id) {
      var q, i :| q in catalog && q != id && 0 <= i < |catalog[q].rows| && catalog[q].rows[i].sku == sku;
      assert next[q].rows[i].sku == sku;
    }
  }

  lemma StoringKeepsCatalog(catalog: Catalog, id: nat, listing: Listing)
    requires CatalogValid(catalog) && ListingValid(listing, Foreign(catalog, id))
    ensures CatalogValid(catalog[id := listing])
  {
    var next := catalog[id := listing];
    ForeignUntouched(catalog, id, listing);
    forall q | q in next && q != id ensures ListingValid(next[q], Foreign(next, q)) {
      forall i | 0 <= i < |next[q].rows| ensures next[q].rows[i].sku !in Foreign(next, q) {
        var sku := catalog[q].rows[i].sku;
        assert sku in Foreign(catalog, id) && sku !in Foreign(catalog, q);
        assert forall k :: 0 <= k < |listing.rows| ==> listing.rows[k].sku != sku;
      }
    }
  }

  lemma {:induction false} LiveAxesClean(axes: seq<Axis>)
    requires !Clash(Names(axes))
    ensures Distinct(Names(LiveAxes(axes)))
    ensures forall a :: a in LiveAxes(axes) <==> a in axes && a.values != []
  {
    if axes != [] {
      var front, last, live := axes[..|axes| - 1], axes[|axes| - 1], LiveAxes(axes[..|axes| - 1]);
      assert Names(front) == Names(axes)[..|axes| - 1];
      LiveAxesClean(front);
      assert axes == front + [last];
      forall i | 0 <= i < |live| ensures Names(live)[i] != last.name {
        assert live[i] in front;
        var k :| 0 <= k < |front| && front[k] == live[i];
        assert Names(axes)[k] == live[i].name && Names(axes)[|axes| - 1] == last.name;
      }
      assert Names(live + [last]) == Names(live) + [last.name];
    }
  }

  lemma WithDefaultIsValid(title: string, rows: seq<Row>, foreign: set<string>)
    requires RowsValid(rows, foreign)
    ensures RowsValid(WithDefault(title, rows, foreign), foreign)
  {
    if !HasDefault(rows) {
      UniqueSkuIsFree(Join("-", [Slug(title), "STD"]), foreign + SkusOf(rows));
      AppendedIsValid(rows, DefaultRow(title, foreign + SkusOf(rows)), foreign);
    }
  }

  lemma NextRowsAreValid(listing: Listing, foreign: set<string>)
    requires RowsValid(listing.rows, foreign) && !Clash(Names(listing.axes))
    ensures RowsValid(NextRows(listing, foreign), foreign)
  {
    LiveAxesClean(listing.axes);
    if LiveAxes(listing.axes) == [] {
      WithDefaultIsValid(listing.title, listing.rows, foreign);
    } else {
      GenerateIsExact(listing.title, LiveAxes(listing.axes), listing.rows, foreign);
    }
  }

  lemma CleanAxesAreClean(axes: seq<Axis>)
    ensures forall i :: 0 <= i < |CleanAxes(axes)| ==> Distinct(CleanAxes(axes)[i].values)
  {
    forall i | 0 <= i < |CleanAxes(axes)| ensures Distinct(CleanAxes(axes)[i].values) {
      CleanedIsDistinct(axes[i].values);
    }
  }

  /** Every committed call stores one listing, which is valid where it goes. */
  lemma StoredListingIsValid(catalog: Catalog, call: Call)
    requires CatalogValid(catalog) && Attempt(catalog, call).Committed?
    ensures call.id in Attempt(catalog, call).value
    ensures var listing := Attempt(catalog, call).value[call.id];
            && Attempt(catalog, call).value == catalog[call.id := listing]
            && ListingValid(listing, Foreign(catalog, call.id))
  {
    var foreign := Foreign(catalog, call.id);
    match call
    case DoCreate(_, title, axes) =>
      CleanAxesAreClean(axes);
      NextRowsAreValid(Listing(title, CleanAxes(axes), []), foreign);
    case DoSetAxes(id, axes, _) =>
      CleanAxesAreClean(axes);
      WithDefaultIsValid(catalog[id].title, catalog[id].rows, foreign);
    case DoGenerate(id, _) => NextRowsAreValid(catalog[id], foreign);
  }

  lemma CallKeepsCatalog(catalog: Catalog, call: Call)
    requires CatalogValid(catalog)
    ensures CatalogValid(After(Attempt(catalog, call), catalog))
  {
    if Attempt(catalog, call).Committed? {
      StoredListingIsValid(catalog, call);
      StoringKeepsCatalog(catalog, call.id, Attempt(catalog, call).value[call.id]);
    }
  }

  lemma {:induction false} RunKeepsCatalog(catalog: Catalog, calls: seq<Call>)
    requires CatalogValid(catalog)
    ensures CatalogValid(Run(catalog, calls))
    decreases |calls|
  {
    if calls != [] {
      CallKeepsCatalog(catalog, calls[0]);
      RunKeepsCatalog(After(Attempt(catalog, calls[0]), catalog), calls[1..]);
    }
  }

  /** In every run the SKUs of the whole catalog are distinct, and so are the options and the
      names of each product's variants. */
  lemma SkusStayDistinct(calls: seq<Call>, p: nat, i: nat, q: nat, j: nat)
    requires var c := Run(map[], calls);
             p in c && q in c && i < |c[p].rows| && j < |c[q].rows| && (p != q || i != j)
    ensures var c := Run(map[], calls);
            && c[p].rows[i].sku != c[q].rows[j].sku
            && (p == q ==> c[p].rows[i].options != c[q].rows[j].options && c[p].rows[i].name != c[q].rows[j].name)
  {
    var c := Run(map[], calls);
    RunKeepsCatalog(map[], calls);
    assert ListingValid(c[p], Foreign(c, p));
    if p != q {
      assert c[q].rows[j].sku in Foreign(c, p);
    } else {
      assert RowNames(c[p].rows)[i] == c[p].rows[i].name && RowNames(c[p].rows)[j] == c[p].rows[j].name;
    }
  }
}
