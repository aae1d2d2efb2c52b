/** When generating variants breaks UNIQUE(product_id, name). */
module VariantNames {
  import opened Outcomes
  import opened Variants

  /** A combination generation has to add: no kept row carries its options. */
  predicate Missing(axes: seq<Axis>, kept: seq<Row>, combo: seq<string>) {
    Fits(Values(axes), combo) && !HasOptions(kept, Zip(Names(axes), combo))
  }

  /** Two missing combinations that read the same once joined. */
  predicate SameName(axes: seq<Axis>, kept: seq<Row>, a: seq<string>, b: seq<string>) {
    Missing(axes, kept, a) && Missing(axes, kept, b) && a != b && Join(" / ", a) == Join(" / ", b)
  }

  /** A missing combination that reads like a row the product already has. */
  predicate TakenName(axes: seq<Axis>, kept: seq<Row>, a: seq<string>, i: nat) {
    Missing(axes, kept, a) && i < |kept| && kept[i].name == Join(" / ", a)
  }

  ghost predicate AnySameName(axes: seq<Axis>, kept: seq<Row>) { exists a, b :: SameName(axes, kept, a, b) }

  ghost predicate AnyTakenName(axes: seq<Axis>, kept: seq<Row>) { exists a, i :: TakenName(axes, kept, a, i) }

  ghost predicate NamesCollide(axes: seq<Axis>, kept: seq<Row>) { AnySameName(axes, kept) || AnyTakenName(axes, kept) }

  // ------------------------------------------------------------ generation

  /** The row added for a missing combination is named after it. */
  lemma RowOfCombo(product: string, axes: seq<Axis>, rows: seq<Row>, foreign: set<string>, combo: seq<string>)
    returns (i: nat)
    requires axes != [] && Distinct(Names(axes)) && Missing(axes, Kept(rows), combo)
    ensures var final := Generated(product, axes, rows, foreign);
            && |Kept(rows)| <= i < |final| && Kept(rows) <= final
            && final[i].options == Zip(Names(axes), combo) && final[i].name == Join(" / ", combo)
  {
    var final, combos := Generated(product, axes, rows, foreign), Cartesian(Values(axes));
    CombosFit(axes);
    MintPrefix(product, Names(axes), combos, Kept(rows), foreign);
    GeneratedCovers(product, axes, rows, foreign, combo);
    i :| 0 <= i < |final| && final[i].options == Zip(Names(axes), combo);
    forall j | 0 <= j < |Kept(rows)| ensures final[j].options != Zip(Names(axes), combo) {
      assert Kept(rows)[j] == final[j];
    }
    var k := MintAddsCombos(product, Names(axes), combos, Kept(rows), foreign, i);
    ZipInjective(Names(axes), combos[k], combo);
  }

  /** The missing combination an added row was made from. */
  lemma ComboOfRow(product: string, axes: seq<Axis>, rows: seq<Row>, foreign: set<string>, i: nat)
    returns (combo: seq<string>)
    requires axes != [] && Distinct(Names(axes)) && RowsValid(rows, foreign)
    requires |Kept(rows)| <= i < |Generated(product, axes, rows, foreign)|
    ensures Missing(axes, Kept(rows), combo)
    ensures MadeFrom(Generated(product, axes, rows, foreign)[i], Names(axes), combo)
  {
    GenerateIsExact(product, axes, rows, foreign);
    var row := Generated(product, axes, rows, foreign)[i];
    assert Added(row, axes, Kept(rows));
    combo :| Fits(Values(axes), combo) && MadeFrom(row, Names(axes), combo);
  }

  lemma NoClash(rows: seq<Row>, i: nat, j: nat)
    requires !Clash(RowNames(rows)) && i < j < |rows|
    ensures rows[i].name != rows[j].name
  {
    assert RowNames(rows)[i] == rows[i].name && RowNames(rows)[j] == rows[j].name;
  }

  lemma ClashMeansCollision(product: string, axes: seq<Axis>, rows: seq<Row>, foreign: set<string>, i: nat, j: nat)
    requires axes != [] && Distinct(Names(axes)) && RowsValid(rows, foreign) && !Clash(RowNames(Kept(rows)))
    requires i < j < |Generated(product, axes, rows, foreign)|
    requires Generated(product, axes, rows, foreign)[i].name == Generated(product, axes, rows, foreign)[j].name
    ensures NamesCollide(axes, Kept(rows))
  {
    var final, kept := Generated(product, axes, rows, foreign), Kept(rows);
    GenerateIsExact(product, axes, rows, foreign);
    forall m, n | 0 <= m < n < |kept| ensures final[m].name != final[n].name { NoClash(kept, m, n); }
    var b := ComboOfRow(product, axes, rows, foreign, j);
    if i < |kept| {
      assert kept[i] == final[i];
      assert TakenName(axes, kept, b, i);
    } else {
      var a := ComboOfRow(product, axes, rows, foreign, i);
      assert SameName(axes, kept, a, b);
    }
  }

  lemma SameNameClashes(
      product: string, axes: seq<Axis>, rows: seq<Row>, foreign: set<string>, a: seq<string>, b: seq<string>)
    requires axes != [] && Distinct(Names(axes)) && SameName(axes, Kept(rows), a, b)
    ensures Clash(RowNames(Generated(product, axes, rows, foreign)))
  {
    var names := RowNames(Generated(product, axes, rows, foreign));
    var i := RowOfCombo(product, axes, rows, foreign, a);
    var j := RowOfCombo(product, axes, rows, foreign, b);
    if Zip(Names(axes), a) == Zip(Names(axes), b) { ZipInjective(Names(axes), a, b); }
    var first, second := if i < j then i else j, if i < j then j else i;
    assert names[first] == names[second];
  }

  lemma TakenNameClashes(product: string, axes: seq<Axis>, rows: seq<Row>, foreign: set<string>, a: seq<string>, i: nat)
    requires axes != [] && Distinct(Names(axes)) && TakenName(axes, Kept(rows), a, i)
    ensures Clash(RowNames(Generated(product, axes, rows, foreign)))
  {
    var names := RowNames(Generated(product, axes, rows, foreign));
    var j := RowOfCombo(product, axes, rows, foreign, a);
    assert names[i] == Kept(rows)[i].name && names[j] == Join(" / ", a);
  }

  /** Generation, first or repeated, gives two rows one name if and only if two missing
      combinations read the same or one reads like a row that stays. */
  lemma NamesClashIff(product: string, axes: seq<Axis>, rows: seq<Row>, foreign: set<string>)
    requires axes != [] && Distinct(Names(axes)) && RowsValid(rows, foreign) && !Clash(RowNames(Kept(rows)))
    ensures Clash(RowNames(Generated(product, axes, rows, foreign))) <==> NamesCollide(axes, Kept(rows))
  {
    var final := Generated(product, axes, rows, foreign);
    if Clash(RowNames(final)) {
      var i, j :| 0 <= i < j < |final| && RowNames(final)[i] == RowNames(final)[j];
      ClashMeansCollision(product, axes, rows, foreign, i, j);
    }
    if a, b :| SameName(axes, Kept(rows), a, b) { SameNameClashes(product, axes, rows, foreign, a, b); }
    if a, i :| TakenName(axes, Kept(rows), a, i) { TakenNameClashes(product, axes, rows, foreign, a, i); }
  }

  // ------------------------------------------------------------- the calls

  lemma {:induction false} KeptNames(rows: seq<Row>)
    requires !Clash(RowNames(rows))
    ensures !Clash(RowNames(Kept(rows)))
  {
    if rows != [] {
      var front, last, kept := rows[..|rows| - 1], rows[|rows| - 1], Kept(rows[..|rows| - 1]);
      assert RowNames(front) == RowNames(rows)[..|rows| - 1];
      KeptNames(front);
      forall i | 0 <= i < |kept| ensures kept[i].name != last.name {
        KeptRow(front, kept[i]);
        var k :| 0 <= k < |front| && front[k] == kept[i];
        assert RowNames(rows)[k] == kept[i].name && RowNames(rows)[|rows| - 1] == last.name;
      }
      assert RowNames(kept + [last]) == RowNames(kept) + [last.name];
    }
  }

  lemma {:induction false} DropsOnlyADefault(rows: seq<Row>)
    requires forall i :: 0 <= i < |rows| ==> (rows[i].isDefault <==> rows[i].options == map[])
    ensures |Kept(rows)| <= |rows|
    ensures |Kept(rows)| < |rows| <==> HasDefault(rows)
  {
    if rows != [] {
      var front := rows[..|rows| - 1];
      DropsOnlyADefault(front);
      if HasDefault(front) {
        var i :| 0 <= i < |front| && front[i].isDefault;
        assert rows[i].isDefault;
      } else {
        assert forall i :: 0 <= i < |front| ==> rows[i] == front[i];
      }
    }
  }

  /** Adding the default row clashes when a variant is called "Default" already. */
  predicate DefaultTaken(rows: seq<Row>) {
    !HasDefault(rows) && exists i :: 0 <= i < |rows| && rows[i].name == "Default"
  }

  lemma DefaultClashIff(title: string, rows: seq<Row>, foreign: set<string>)
    requires !Clash(RowNames(rows))
    ensures Clash(RowNames(WithDefault(title, rows, foreign))) <==> DefaultTaken(rows)
  {
    if !HasDefault(rows) {
      var next := WithDefault(title, rows, foreign);
      assert RowNames(next) == RowNames(rows) + ["Default"];
      if DefaultTaken(rows) {
        var i :| 0 <= i < |rows| && rows[i].name == "Default";
        assert RowNames(next)[i] == RowNames(next)[|rows|];
      }
      if Clash(RowNames(next)) {
        forall m, n | 0 <= m < n < |rows| ensures RowNames(next)[m] != RowNames(next)[n] { NoClash(rows, m, n); }
        var i, j :| 0 <= i < j < |next| && RowNames(next)[i] == RowNames(next)[j];
        assert rows[i].name == "Default";
      }
    }
  }

  /** What makes the generation of a listing collide, whichever branch it takes. */
  ghost predicate GenerationCollides(listing: Listing) {
    if LiveAxes(listing.axes) == [] then DefaultTaken(listing.rows)
    else NamesCollide(LiveAxes(listing.axes), Kept(listing.rows))
  }

  lemma NextRowsClashIff(listing: Listing, foreign: set<string>)
    requires RowsValid(listing.rows, foreign) && !Clash(RowNames(listing.rows)) && !Clash(Names(listing.axes))
    ensures Clash(RowNames(NextRows(listing, foreign))) <==> GenerationCollides(listing)
  {
    if LiveAxes(listing.axes) == [] {
      DefaultClashIff(listing.title, listing.rows, foreign);
    } else {
      LiveAxesClean(listing.axes);
      KeptNames(listing.rows);
      NamesClashIff(listing.title, LiveAxes(listing.axes), listing.rows, foreign);
    }
  }

  /** Generate Variants on any product of a reachable catalog aborts on UNIQUE(product_id,
      name) if and only if its names collide, unless RESTRICT stops it before. */
  lemma GenerateRefusedIff(catalog: Catalog, id: nat, defaultInUse: bool)
    requires CatalogValid(catalog) && id in catalog
    ensures Generate(catalog, id, defaultInUse) == Refused(NameTaken)
            <==> && GenerationCollides(catalog[id])
                 && !(defaultInUse && LiveAxes(catalog[id].axes) != [] && HasDefault(catalog[id].rows))
  {
    DropsOnlyADefault(catalog[id].rows);
    NextRowsClashIff(catalog[id], Foreign(catalog, id));
  }

  lemma OneEmptyCombo()
    ensures !AnySameName([], [])
  {
    forall a, b ensures !SameName([], [], a, b) {
      assert |a| == 0 && |b| == 0 ==> a == b;
    }
  }

  lemma NothingTakenYet(axes: seq<Axis>)
    ensures !AnyTakenName(axes, [])
  {
  }

  /** Creating a product aborts if and only if two of its combinations read the same. */
  lemma CreateRefusedIff(catalog: Catalog, id: nat, title: string, axes: seq<Axis>)
    requires id !in catalog && !Clash(Names(CleanAxes(axes)))
    ensures Create(catalog, id, title, axes) == Refused(NameTaken) <==> AnySameName(LiveAxes(CleanAxes(axes)), [])
  {
    var listing := Listing(title, CleanAxes(axes), []);
    NextRowsClashIff(listing, Foreign(catalog, id));
    NothingTakenYet(LiveAxes(listing.axes));
    OneEmptyCombo();
    assert Kept([]) == [];
  }

  /** Rewriting the axes aborts if and only if it adds a default row whose name is taken. */
  lemma SetAxesRefusedIff(catalog: Catalog, id: nat, axes: seq<Axis>, hasVariants: bool)
    requires CatalogValid(catalog) && id in catalog && !Clash(Names(CleanAxes(axes)))
    ensures SetAxes(catalog, id, axes, hasVariants) == Refused(NameTaken)
            <==> !hasVariants && DefaultTaken(catalog[id].rows)
  {
    DefaultClashIff(catalog[id].title, catalog[id].rows, Foreign(catalog, id));
  }

  // ------------------------------------------------- collisions that happen

  /** A name that stripping leaves alone. */
  predicate Trimmed(s: string) { s != [] && Strip(s) == s }

  /** A product with one axis of one value has one variant, called after the value. */
  lemma CreatesOne(title: string, axis: string, value: string) returns (row: Row)
    requires Trimmed(axis) && Trimmed(value)
    ensures Create(map[], 0, title, [Axis(axis, [value])])
            == Committed(map[0 := Listing(title, [Axis(axis, [value])], [row])])
    ensures row.name == value && row.options == map[axis := value] && !row.isDefault
  {
    var axes := [Axis(axis, [value])];
    OneValueAxes(axis, value);
    var combos := [[value]];
    assert combos[..0] == [] && Names(axes) == [axis];
    assert Zip([axis], [value]) == map[axis := value] by { assert [axis][..0] == [] && [value][..0] == []; }
    var foreign := Foreign(map[], 0);
    row := NewRow(title, [axis], [value], foreign + SkusOf([]));
    assert Mint(title, [axis], combos[..0], [], foreign) == [];
    assert Mint(title, [axis], combos, [], foreign) == [row];
  }

  lemma OneValueAxes(axis: string, value: string)
    requires Trimmed(axis) && Trimmed(value)
    ensures var axes := [Axis(axis, [value])];
            && CleanAxes(axes) == axes && LiveAxes(axes) == axes && Values(axes) == [[value]]
            && Cartesian([[value]]) == [[value]] && !Clash(Names(axes))
  {
    var axes := [Axis(axis, [value])];
    assert [value][..0] == [] && axes[..0] == [];
    assert Cleaned([]) == [] && LiveAxes([]) == [];
    assert Cleaned([value]) == [value];
    assert CleanAxes(axes) == axes;
    assert [[value]][1..] == [] && [value][1..] == [];
    var unit: seq<seq<string>> := [[]];
    assert Cartesian([]) == unit && [value] + unit[0] == [value];
    assert Prepend(value, unit) == [[value]];
    assert Extend([value], unit) == [[value]] + Extend([], unit);
  }

  lemma EmptyIsValid()
    ensures CatalogValid(map[])
  {
  }

  lemma RenamedCollides(title: string, row: Row, before: string, after: string, value: string)
    requires Trimmed(before) && Trimmed(after) && Trimmed(value) && before != after
    requires row.name == value && row.options == map[before := value] && !row.isDefault
    ensures GenerationCollides(Listing(title, [Axis(after, [value])], [row]))
  {
    var axes := [Axis(after, [value])];
    OneValueAxes(after, value);
    assert Kept([row]) == [row] by { assert [row][..0] == []; }
    assert Zip([after], [value]) == map[after := value] by { assert [after][..0] == [] && [value][..0] == []; }
    assert Names(axes) == [after] && after in map[after := value] && after !in row.options;
    assert Fits(Values(axes), [value]);
    assert TakenName(axes, [row], [value], 0);
  }

  lemma RenamesTo(title: string, row: Row, before: string, after: string, value: string)
    requires Trimmed(after) && Trimmed(value)
    ensures var c := map[0 := Listing(title, [Axis(before, [value])], [row])];
            SetAxes(c, 0, [Axis(after, [value])], true)
                == Committed(map[0 := Listing(title, [Axis(after, [value])], [row])])
  {
    OneValueAxes(after, value);
    var c := map[0 := Listing(title, [Axis(before, [value])], [row])];
    assert c[0 := Listing(title, [Axis(after, [value])], [row])]
        == map[0 := Listing(title, [Axis(after, [value])], [row])];
  }

  /** Renaming an axis and generating again always aborts: the new options are missing and
      the old variant keeps their name. */
  lemma RenamedAxisClashes(title: string, before: string, after: string, value: string)
    requires Trimmed(before) && Trimmed(after) && Trimmed(value) && before != after
    ensures var c := Run(map[],
            [DoCreate(0, title, [Axis(before, [value])]), DoSetAxes(0, [Axis(after, [value])], true)]);
            0 in c && Generate(c, 0, false) == Refused(NameTaken)
  {
    var create, rename := DoCreate(0, title, [Axis(before, [value])]), DoSetAxes(0, [Axis(after, [value])], true);
    var row := CreatesOne(title, before, value);
    RenamesTo(title, row, before, after, value);
    var c1 := map[0 := Listing(title, [Axis(before, [value])], [row])];
    var c2 := map[0 := Listing(title, [Axis(after, [value])], [row])];
    RunTwo(map[], create, rename, c1, c2);
    EmptyIsValid();
    RunKeepsCatalog(map[], [create, rename]);
    RenamedCollides(title, row, before, after, value);
    GenerateRefusedIff(c2, 0, false);
  }

  lemma RunTwo(c: Catalog, first: Call, second: Call, c1: Catalog, c2: Catalog)
    requires After(Attempt(c, first), c) == c1 && After(Attempt(c1, second), c1) == c2
    ensures Run(c, [first, second]) == c2
  {
    assert [first, second][1..] == [second] && [second][1..] == [];
    assert Run(c1, [second]) == Run(c2, []);
  }

  /** At a concrete product: variant "Red" of axis "Color", renamed to "Colour". */
  lemma RedByAnotherName()
    ensures var c := Run(map[],
            [DoCreate(0, "Shirt", [Axis("Color", ["Red"])]), DoSetAxes(0, [Axis("Colour", ["Red"])], true)]);
            0 in c && Generate(c, 0, false) == Refused(NameTaken)
  {
    assert Trimmed("Color") && Trimmed("Colour") && Trimmed("Red");
    assert "Color" != "Colour" by { assert |"Color"| != |"Colour"|; }
    RenamedAxisClashes("Shirt", "Color", "Colour", "Red");
  }

  /** A variant called "Default" stops the default row of a product without variants. */
  lemma DefaultByName()
    ensures var c := Run(map[], [DoCreate(0, "Plan", [Axis("Kind", ["Default"])])]);
            0 in c && SetAxes(c, 0, [], false) == Refused(NameTaken)
  {
    assert Trimmed("Kind") && Trimmed("Default");
    var create := DoCreate(0, "Plan", [Axis("Kind", ["Default"])]);
    var row := CreatesOne("Plan", "Kind", "Default");
    var c := map[0 := Listing("Plan", [Axis("Kind", ["Default"])], [row])];
    assert [create][1..] == [];
    assert Run(map[], [create]) == Run(c, []);
    EmptyIsValid();
    RunKeepsCatalog(map[], [create]);
    assert CleanAxes([]) == [] && !Clash(Names([]));
    assert [row][0].name == "Default";
    SetAxesRefusedIff(c, 0, [], false);
  }

  /** Two axes of two values each, as stored. */
  lemma TwoAxes(x: Axis, y: Axis, a: string, b: string, c: string, d: string)
    requires Trimmed(x.name) && Trimmed(y.name) && x.name != y.name && x.values == [a, b] && y.values == [c, d]
    requires Trimmed(a) && Trimmed(b) && Trimmed(c) && Trimmed(d) && a != b && c != d
    ensures CleanAxes([x, y]) == [x, y] && LiveAxes([x, y]) == [x, y]
    ensures !Clash(Names([x, y])) && Names([x, y]) == [x.name, y.name] && Values([x, y]) == [[a, b], [c, d]]
  {
    TwoCleanValues(a, b);
    TwoCleanValues(c, d);
    assert [x, y][..1] == [x] && [x][..0] == [];
    assert LiveAxes([x]) == [x];
  }

  lemma PairsCollide(x: Axis, y: Axis, a: string, b: string, c: string, d: string)
    requires x.values == [a, b] && y.values == [c, d] && a != b && a + " / " + c == b + " / " + d
    ensures SameName([x, y], [], [a, c], [b, d])
  {
    assert [a, c][1..] == [c] && [b, d][1..] == [d];
    assert Values([x, y]) == [[a, b], [c, d]];
    assert [a, c][0] != [b, d][0];
  }

  /** Two combinations of a fresh product that read the same: "a / b" with "c", and "a" with
      "b / c". */
  lemma SlashesCollide()
    ensures Create(map[], 0, "Shirt", [Axis("Cut", ["a / b", "a"]), Axis("Fit", ["c", "b / c"])]) == Refused(NameTaken)
  {
    var cut, fit := Axis("Cut", ["a / b", "a"]), Axis("Fit", ["c", "b / c"]);
    assert "Cut"[0] != "Fit"[0];
    TwoAxes(cut, fit, "a / b", "a", "c", "b / c");
    assert "a / b" + " / " + "c" == "a" + " / " + "b / c";
    PairsCollide(cut, fit, "a / b", "a", "c", "b / c");
    CreateRefusedIff(map[], 0, "Shirt", [cut, fit]);
  }

  lemma TwoCleanValues(a: string, b: string)
    requires Trimmed(a) && Trimmed(b) && a != b
    ensures Cleaned([a, b]) == [a, b]
  {
    assert [a, b][..1] == [a] && [a][..0] == [];
    assert Cleaned([a]) == [a];
  }

  // -------------------------------------------------------- a safe alphabet

  predicate SlashFree(s: string) { '/' !in s }

  /** Values without a slash cannot collide. */
  lemma {:induction false} SlashFreeNamesDiffer(a: seq<string>, b: seq<string>)
    requires |a| == |b| && Join(" / ", a) == Join(" / ", b)
    requires (forall i :: 0 <= i < |a| ==> SlashFree(a[i])) && (forall i :: 0 <= i < |b| ==> SlashFree(b[i]))
    ensures a == b
  {
    if |a| > 1 {
      var s, x, y := Join(" / ", a), a[0], b[0];
      assert s == x + " / " + Join(" / ", a[1..]) && s == y + " / " + Join(" / ", b[1..]);
      FirstSlash(s, x, Join(" / ", a[1..]), y, Join(" / ", b[1..]));
      SlashFreeNamesDiffer(a[1..], b[1..]);
      assert a == [x] + a[1..] && b == [y] + b[1..];
    }
  }

  lemma FirstSlash(s: string, x: string, xs: string, y: string, ys: string)
    requires s == x + " / " + xs && s == y + " / " + ys && SlashFree(x) && SlashFree(y)
    ensures x == y && xs == ys
  {
    SlashPosition(s, x, xs);
    SlashPosition(s, y, ys);
    assert |x| == |y|;
    assert x == s[..|x|] && y == s[..|y|] && xs == s[|x| + 3..] && ys == s[|y| + 3..];
  }

  lemma SlashPosition(s: string, x: string, xs: string)
    requires s == x + " / " + xs && SlashFree(x)
    ensures |s| >= |x| + 3 && s[|x| + 1] == '/' && s[|x|] == ' '
    ensures forall i :: 0 <= i < |x| ==> s[i] != '/'
  {
    forall i | 0 <= i < |x| ensures s[i] != '/' { assert s[i] == x[i]; }
  }

  /** So creating a product from such values never aborts on a name. */
  lemma SlashFreeCreates(catalog: Catalog, id: nat, title: string, axes: seq<Axis>)
    requires id !in catalog && !Clash(Names(CleanAxes(axes)))
    requires forall axis, value :: axis in LiveAxes(CleanAxes(axes)) && value in axis.values ==> SlashFree(value)
    ensures Create(catalog, id, title, axes) != Refused(NameTaken)
  {
    var live := LiveAxes(CleanAxes(axes));
    if Create(catalog, id, title, axes) == Refused(NameTaken) {
      CreateRefusedIff(catalog, id, title, axes);
      var a, b :| SameName(live, [], a, b);
      assert |a| == |Values(live)| == |b|;
      forall i | 0 <= i < |live| ensures SlashFree(a[i]) && SlashFree(b[i]) {
        assert live[i] in live && a[i] in live[i].values && b[i] in live[i].values;
      }
      SlashFreeNamesDiffer(a, b);
      assert false;
    }
  }
}
