/** The variant service: loops over values, combinations and rows, and the catalog they
    update, each proved to have the effect `Variants` gives it. */
module VariantDesk {
  import opened Outcomes
  import opened Skus
  import opened Variants

  /** Strips and deduplicates the values typed for one axis. */
  method CleanValues(values: seq<string>) returns (cleaned: seq<string>)
    ensures cleaned == Cleaned(values)
  {
    cleaned := [];
    var seen: set<string> := {};
    for i := 0 to |values|
      invariant cleaned == Cleaned(values[..i])
      invariant forall v :: v in seen <==> v in cleaned
    {
      assert values[..i + 1][..i] == values[..i];
      var value := Strip(values[i]);
      if value != [] && value !in seen {
        seen := seen + {value};
        cleaned := cleaned + [value];
      }
    }
    assert values[..|values|] == values;
  }

  method CleanEach(axes: seq<Axis>) returns (cleaned: seq<Axis>)
    ensures cleaned == CleanAxes(axes)
  {
    cleaned := [];
    for i := 0 to |axes|
      invariant cleaned == CleanAxes(axes)[..i]
    {
      var values := CleanValues(axes[i].values);
      cleaned := cleaned + [Axis(Strip(axes[i].name), values)];
    }
  }

  method AxesWithValues(axes: seq<Axis>) returns (live: seq<Axis>)
    ensures live == LiveAxes(axes)
  {
    live := [];
    for i := 0 to |axes|
      invariant live == LiveAxes(axes[..i])
    {
      assert axes[..i + 1][..i] == axes[..i];
      if axes[i].values != [] { live := live + [axes[i]]; }
    }
    assert axes[..|axes|] == axes;
  }

  /** Deletes the stray default row. */
  method DropStray(rows: seq<Row>) returns (kept: seq<Row>)
    ensures kept == Kept(rows)
  {
    kept := [];
    for i := 0 to |rows|
      invariant kept == Kept(rows[..i])
    {
      assert rows[..i + 1][..i] == rows[..i];
      if !(rows[i].isDefault && rows[i].options == map[]) { kept := kept + [rows[i]]; }
    }
    assert rows[..|rows|] == rows;
  }

  /** The generation loop: `known` is the options index and `taken` the SKUs in use, both
      kept up to date with the rows minted so far. */
  method MintRows(product: string, names: seq<string>, combos: seq<seq<string>>, kept: seq<Row>, foreign: set<string>)
    returns (rows: seq<Row>)
    requires forall i :: 0 <= i < |combos| ==> |combos[i]| == |names|
    ensures rows == Mint(product, names, combos, kept, foreign)
  {
    rows := kept;
    var known := set i | 0 <= i < |kept| :: kept[i].options;
    var taken := foreign + SkusOf(kept);
    for i := 0 to |combos|
      invariant rows == Mint(product, names, combos[..i], kept, foreign)
      invariant taken == foreign + SkusOf(rows)
      invariant forall o :: o in known <==> HasOptions(rows, o)
    {
      var options := Zip(names, combos[i]);
      assert combos[..i + 1][..i] == combos[..i];
      if options !in known {
        var sku := FindSku(SkuBase(product, combos[i]), taken);
        var row := Row(sku, Join(" / ", combos[i]), options, false);
        IndexesGrow(rows, row);
        rows := rows + [row];
        known := known + {options};
        taken := taken + {sku};
      }
    }
    assert combos[..|combos|] == combos;
  }

  lemma IndexesGrow(rows: seq<Row>, row: Row)
    ensures SkusOf(rows + [row]) == SkusOf(rows) + {row.sku}
    ensures forall o :: HasOptions(rows + [row], o) <==> HasOptions(rows, o) || o == row.options
  {
    var more := rows + [row];
    assert more[|rows|] == row;
    forall sku | sku in SkusOf(rows) ensures sku in SkusOf(more) {
      var i :| 0 <= i < |rows| && rows[i].sku == sku;
      assert more[i].sku == sku;
    }
    forall o | HasOptions(rows, o) ensures HasOptions(more, o) {
      var i :| 0 <= i < |rows| && rows[i].options == o;
      assert more[i].options == o;
    }
  }

  class VariantService {
    var products: Catalog

    constructor ()
      ensures products == map[] && CatalogValid(products)
    {
      products := map[];
    }

    /** ensure_default_variant, on a product's rows. */
    method EnsureDefault(title: string, rows: seq<Row>, foreign: set<string>) returns (next: seq<Row>)
      ensures next == WithDefault(title, rows, foreign)
    {
      if exists i :: 0 <= i < |rows| && rows[i].isDefault { return rows; }
      var sku := FindSku(Join("-", [Slug(title), "STD"]), foreign + SkusOf(rows));
      next := rows + [Row(sku, "Default", map[], true)];
    }

    /** generate_variants, on a product's rows. */
    method GenerateRows(listing: Listing, foreign: set<string>) returns (next: seq<Row>)
      ensures next == NextRows(listing, foreign)
    {
      var axes := AxesWithValues(listing.axes);
      if axes == [] {
        next := EnsureDefault(listing.title, listing.rows, foreign);
      } else {
        var kept := DropStray(listing.rows);
        CombosFit(axes);
        next := MintRows(listing.title, Names(axes), Cartesian(Values(axes)), kept, foreign);
      }
    }

    method CreateProduct(id: nat, title: string, axes: seq<Axis>) returns (refusal: Option<Refusal>)
      modifies this
      ensures var outcome := Create(old(products), id, title, axes);
              && products == After(outcome, old(products))
              && refusal == (if outcome.Refused? then Some(outcome.reason) else None)
    {
      if id in products { return Some(ProductExists); }
      var cleaned := CleanEach(axes);
      if Clash(Names(cleaned)) { return Some(AxisNameTaken); }
      var rows := GenerateRows(Listing(title, cleaned, []), Foreign(products, id));
      if Clash(RowNames(rows)) { return Some(NameTaken); }
      products := products[id := Listing(title, cleaned, rows)];
      refusal := None;
    }

    method ReplaceAxes(id: nat, axes: seq<Axis>, hasVariants: bool) returns (refusal: Option<Refusal>)
      modifies this
      ensures var outcome := SetAxes(old(products), id, axes, hasVariants);
              && products == After(outcome, old(products))
              && refusal == (if outcome.Refused? then Some(outcome.reason) else None)
    {
      if id !in products { return Some(UnknownProduct); }
      var cleaned := CleanEach(axes);
      if Clash(Names(cleaned)) { return Some(AxisNameTaken); }
      var listing := products[id].(axes := cleaned);
      if !hasVariants {
        var rows := EnsureDefault(listing.title, listing.rows, Foreign(products, id));
        if Clash(RowNames(rows)) { return Some(NameTaken); }
        listing := listing.(rows := rows);
      }
      products := products[id := listing];
      refusal := None;
    }

    method GenerateVariants(id: nat, defaultInUse: bool) returns (refusal: Option<Refusal>)
      modifies this
      ensures var outcome := Generate(old(products), id, defaultInUse);
              && products == After(outcome, old(products))
              && refusal == (if outcome.Refused? then Some(outcome.reason) else None)
    {
      if id !in products { return Some(UnknownProduct); }
      var listing := products[id];
      var axes := AxesWithValues(listing.axes);
      var kept := DropStray(listing.rows);
      if axes != [] && defaultInUse && |kept| < |listing.rows| { return Some(DefaultInUse); }
      var rows := GenerateRows(listing, Foreign(products, id));
      if Clash(RowNames(rows)) { return Some(NameTaken); }
      products := products[id := listing.(rows := rows)];
      refusal := None;
    }

    method Perform(call: Call) returns (refusal: Option<Refusal>)
      requires CatalogValid(products)
      modifies this
      ensures var outcome := Attempt(old(products), call);
              && products == After(outcome, old(products))
              && refusal == (if outcome.Refused? then Some(outcome.reason) else None)
      ensures CatalogValid(products)
    {
      CallKeepsCatalog(products, call);
      match call
      case DoCreate(id, title, axes) => refusal := CreateProduct(id, title, axes);
      case DoSetAxes(id, axes, hasVariants) => refusal := ReplaceAxes(id, axes, hasVariants);
      case DoGenerate(id, defaultInUse) => refusal := GenerateVariants(id, defaultInUse);
    }
  }
}
