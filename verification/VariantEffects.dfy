/** What the variant calls write, said in the titles, names and values typed. */
module VariantEffects {
  import opened Outcomes
  import opened Skus
  import opened Variants

  // ----------------------------------------------------------------- slugs

  /** The runs of letters and digits of a text, in upper case. */
  function Words(s: string): seq<string> {
    if s == [] then []
    else
      var front, c := Words(s[..|s| - 1]), s[|s| - 1];
      if !Alphanumeric(c) then front
      else if |s| >= 2 && Alphanumeric(s[|s| - 2]) && front != []
      then front[..|front| - 1] + [front[|front| - 1] + [Upper(c)]]
      else front + [[Upper(c)]]
  }

  /** Letters and digits are the 62 of ASCII, and upper case moves a to z onto A to Z. */
  lemma LettersAndDigits(c: char)
    ensures Alphanumeric(c) <==> 48 <= c as int <= 57 || 65 <= c as int <= 90 || 97 <= c as int <= 122
    ensures Upper(c) as int == if 97 <= c as int <= 122 then c as int - 32 else c as int
  {
  }

  predicate EndsInWord(s: string) { s != [] && Alphanumeric(s[|s| - 1]) }

  function Longer(words: seq<string>, c: char): seq<string>
    requires words != []
  {
    words[..|words| - 1] + [words[|words| - 1] + [Upper(c)]]
  }

  lemma WordsSnoc(s: string, c: char)
    ensures Words(s + [c]) == if !Alphanumeric(c) then Words(s)
                              else if EndsInWord(s) && Words(s) != [] then Longer(Words(s), c)
                              else Words(s) + [[Upper(c)]]
  {
    assert (s + [c])[..|s|] == s;
    assert s != [] ==> (s + [c])[|s| - 1] == s[|s| - 1];
  }

  lemma {:induction false} DashedWords(s: string)
    ensures Words(Dashed(s)) == Words(s)
    ensures EndsInWord(Dashed(s)) <==> EndsInWord(s)
  {
    if s != [] {
      var front, c := s[..|s| - 1], s[|s| - 1];
      DashedWords(front);
      assert s == front + [c];
      WordsSnoc(front, c);
      if Alphanumeric(c) { UpperStays(c); }
      DashedSnoc(front, c);
      if Alphanumeric(c) { WordsSnoc(Dashed(front), Upper(c)); } else { WordsSnoc(Dashed(front), '-'); }
    }
  }

  lemma UpperStays(c: char)
    requires Alphanumeric(c)
    ensures Alphanumeric(Upper(c)) && Upper(Upper(c)) == Upper(c)
  {
  }

  lemma DashedSnoc(s: string, c: char)
    ensures Alphanumeric(c) ==> Dashed(s + [c]) == Dashed(s) + [Upper(c)]
    ensures !Alphanumeric(c) ==> Dashed(s + [c]) == Dashed(s) + ['-']
                                 || (Dashed(s + [c]) == Dashed(s) && Dashed(s) != [] && !EndsInWord(Dashed(s)))
  {
    assert (s + [c])[..|s|] == s;
  }

  lemma {:induction false} WordsAfterDash(s: string)
    requires s != [] && !Alphanumeric(s[0])
    ensures Words(s[1..]) == Words(s)
    decreases |s|
  {
    var front, c := s[..|s| - 1], s[|s| - 1];
    assert s == front + [c];
    WordsSnoc(front, c);
    if |s| > 1 {
      WordsAfterDash(front);
      assert s[1..] == front[1..] + [c];
      WordsSnoc(front[1..], c);
      assert EndsInWord(front[1..]) <==> EndsInWord(front);
    } else {
      assert s[1..] == [] && front == [];
    }
  }

  lemma {:induction false} StrippedWords(s: string)
    ensures Words(StripDashes(s)) == Words(s)
    decreases |s|
  {
    if s != [] && s[0] == '-' {
      WordsAfterDash(s);
      StrippedWords(s[1..]);
    } else if s != [] && s[|s| - 1] == '-' {
      StrippedWords(s[..|s| - 1]);
    }
  }

  lemma {:induction false} JoinSnoc(separator: string, parts: seq<string>, last: string)
    requires parts != []
    ensures Join(separator, parts + [last]) == Join(separator, parts) + separator + last
  {
    if |parts| == 1 {
      assert (parts + [last])[1..] == [last];
    } else {
      assert (parts + [last])[1..] == parts[1..] + [last];
      JoinSnoc(separator, parts[1..], last);
      assert Join(separator, parts + [last]) == parts[0] + separator + (Join(separator, parts[1..]) + separator + last);
    }
  }

  lemma JoinLonger(separator: string, parts: seq<string>, last: string, more: string)
    ensures Join(separator, parts + [last + more]) == Join(separator, parts + [last]) + more
  {
    if parts == [] {
      assert [] + [last + more] == [last + more] && [] + [last] == [last];
    } else {
      JoinSnoc(separator, parts, last);
      JoinSnoc(separator, parts, last + more);
    }
  }

  /** A clean text is its words with dashes between, and a dash behind if it ends in one. */
  lemma {:induction false} CleanIsJoined(s: string)
    requires SlugChars(s) && s != [] && s[0] != '-'
    ensures Words(s) != []
    ensures s == Join("-", Words(s)) + if s[|s| - 1] == '-' then "-" else ""
    decreases |s|
  {
    var n := |s| - 1;
    var front, c := s[..n], s[n];
    assert s == front + [c];
    WordsSnoc(front, c);
    if n == 0 {
      assert front == [] && Words(front) == [];
    } else {
      CleanIsJoined(front);
      if c != '-' { JoinedGoesOn(Words(front), c, front[n - 1] == '-'); }
    }
  }

  lemma JoinedGoesOn(words: seq<string>, c: char, apart: bool)
    requires words != [] && Upper(c) == c
    ensures apart ==> Join("-", words + [[c]]) == Join("-", words) + "-" + [c]
    ensures !apart ==> Join("-", Longer(words, c)) == Join("-", words) + [c]
  {
    JoinSnoc("-", words, [c]);
    JoinLonger("-", words[..|words| - 1], words[|words| - 1], [c]);
    assert words[..|words| - 1] + [words[|words| - 1]] == words;
  }

  /** A slug is the words of the text with single dashes between, or ITEM without any. */
  lemma SlugIsWords(value: string)
    ensures Slug(value) == if Words(value) == [] then "ITEM" else Join("-", Words(value))
  {
    var s := StripDashes(Dashed(value));
    DashedWords(value);
    StrippedWords(Dashed(value));
    DashedChars(value);
    StrippedChars(Dashed(value));
    if s != [] { CleanIsJoined(s); } else { assert Words(s) == []; }
  }

  // ------------------------------------------------------------------ SKUs

  /** The SKU asked for: the product's slug and each value's, with dashes between. */
  lemma {:induction false} SkuAskedFor(product: string, combo: seq<string>, value: string)
    ensures SkuBase(product, []) == Slug(product)
    ensures SkuBase(product, combo + [value]) == SkuBase(product, combo) + "-" + Slug(value)
  {
    assert Slugs([]) == [] && [Slug(product)] + [] == [Slug(product)];
    assert [Slug(product)] + Slugs(combo + [value]) == ([Slug(product)] + Slugs(combo)) + [Slug(value)];
    JoinSnoc("-", [Slug(product)] + Slugs(combo), Slug(value));
  }

  /** The SKU given is the first free of the one asked for, cut to 64, and its numbered
      variants; it is the one asked for when that is free, and begins with it when there is
      room for the number. */
  ghost predicate SkuGiven(sku: string, asked: string, used: set<string>) {
    && sku !in used
    && (asked[..if |asked| < 64 then |asked| else 64] !in used ==> sku == asked[..if |asked| < 64 then |asked| else 64])
    && exists n :: IsCandidate(sku, asked, n)
  }

  predicate IsCandidate(sku: string, asked: string, n: nat) {
    && n >= 1 && sku == Candidate(asked, n)
    && (n == 1 && |asked| <= 64 ==> sku == asked)
    && (n >= 2 && |asked| + |Tail(n)| <= 64 ==> sku == asked + "-" + Digits(n))
  }

  lemma UniqueSkuIsGiven(asked: string, used: set<string>)
    ensures SkuGiven(UniqueSku(asked, used), asked, used)
  {
    var n := FirstFree(asked, used, 1);
    assert asked[..|asked|] == asked;
    assert IsCandidate(UniqueSku(asked, used), asked, n);
    assert n > 1 ==> Candidate(asked, 1) in used;
  }

  // ------------------------------------------------------- new variants

  /** Where a new row comes from: its combination is the first whose options the rows before
      it lack, so new rows follow the order of the combinations. */
  lemma {:induction false} MintPlaces(
      product: string, names: seq<string>, combos: seq<seq<string>>, rows: seq<Row>, foreign: set<string>, i: nat)
      returns (k: nat)
    requires forall j :: 0 <= j < |combos| ==> |combos[j]| == |names|
    requires |rows| <= i < |Mint(product, names, combos, rows, foreign)|
    ensures k < |combos|
    ensures var final := Mint(product, names, combos, rows, foreign);
            && final[..i] == Mint(product, names, combos[..k], rows, foreign)
            && !HasOptions(final[..i], Zip(names, combos[k]))
            && final[i] == NewRow(product, names, combos[k], foreign + SkusOf(final[..i]))
  {
    var n := |combos| - 1;
    var front := Mint(product, names, combos[..n], rows, foreign);
    var final := Mint(product, names, combos, rows, foreign);
    if i < |front| {
      k := MintPlaces(product, names, combos[..n], rows, foreign, i);
      assert combos[..n][..k] == combos[..k] && final[..i] == front[..i];
    } else {
      k := n;
      assert final[..i] == front;
    }
  }

  /** A variant made for a combination: named after it, with its options, and with the SKU
      asked for it as far as earlier ones leave it free. */
  ghost predicate VariantMade(row: Row, title: string, names: seq<string>, combo: seq<string>, used: set<string>) {
    MadeFrom(row, names, combo) && SkuGiven(row.sku, SkuBase(title, combo), used)
  }

  /** Every variant generation adds is made for a combination no earlier row has. */
  lemma GeneratedWrites(product: string, axes: seq<Axis>, rows: seq<Row>, foreign: set<string>, i: nat)
      returns (combo: seq<string>)
    requires |Kept(rows)| <= i < |Generated(product, axes, rows, foreign)|
    ensures var final := Generated(product, axes, rows, foreign);
            && Fits(Values(axes), combo)
            && VariantMade(final[i], product, Names(axes), combo, foreign + SkusOf(final[..i]))
            && !HasOptions(final[..i], final[i].options)
  {
    var combos := Cartesian(Values(axes));
    CombosFit(axes);
    var k := MintPlaces(product, Names(axes), combos, Kept(rows), foreign, i);
    combo := combos[k];
    assert combo in combos;
    CartesianIsAll(Values(axes), combo);
    UniqueSkuIsGiven(SkuBase(product, combo), foreign + SkusOf(Generated(product, axes, rows, foreign)[..i]));
  }

  lemma {:induction false} MintLonger(
      product: string, names: seq<string>, combos: seq<seq<string>>, rows: seq<Row>, foreign: set<string>, m: nat,
          k: nat)
    requires forall j :: 0 <= j < |combos| ==> |combos[j]| == |names|
    requires m <= k <= |combos|
    ensures |Mint(product, names, combos[..m], rows, foreign)| <= |Mint(product, names, combos[..k], rows, foreign)|
  {
    if m < k {
      MintLonger(product, names, combos, rows, foreign, m, k - 1);
      assert combos[..k][..k - 1] == combos[..k - 1];
    }
  }

  /** New variants come in the order of their combinations. */
  lemma NewVariantsInOrder(product: string, axes: seq<Axis>, rows: seq<Row>, foreign: set<string>, i: nat, j: nat)
      returns (k: nat, m: nat)
    requires |Kept(rows)| <= i < j < |Generated(product, axes, rows, foreign)|
    ensures var combos, final := Cartesian(Values(axes)), Generated(product, axes, rows, foreign);
            && k < m < |combos|
            && MadeFrom(final[i], Names(axes), combos[k]) && MadeFrom(final[j], Names(axes), combos[m])
  {
    var combos := Cartesian(Values(axes));
    CombosFit(axes);
    k := MintPlaces(product, Names(axes), combos, Kept(rows), foreign, i);
    m := MintPlaces(product, Names(axes), combos, Kept(rows), foreign, j);
    if m <= k { MintLonger(product, Names(axes), combos, Kept(rows), foreign, m, k); }
  }

  lemma {:induction false} ExtendAt(values: seq<string>, combos: seq<seq<string>>, i: nat, j: nat)
    requires i < |values| && j < |combos|
    ensures |Extend(values, combos)| == |values| * |combos|
    ensures i * |combos| + j < |Extend(values, combos)|
    ensures Extend(values, combos)[i * |combos| + j] == [values[i]] + combos[j]
  {
    var n, first, rest := |combos|, Prepend(values[0], combos), Extend(values[1..], combos);
    ExtendLength(values, combos);
    ExtendLength(values[1..], combos);
    PlaceFits(i, j, n, |values|);
    if i > 0 {
      ExtendAt(values[1..], combos, i - 1, j);
      assert (i - 1) * n + j + n == i * n + j;
      assert Extend(values, combos)[i * n + j] == rest[i * n + j - n];
    } else {
      assert 0 * n == 0;
    }
  }

  lemma PlaceFits(i: nat, j: nat, n: nat, m: nat)
    requires i < m && j < n
    ensures i * n + j < m * n
  {
    assert (i + 1) * n <= m * n;
  }

  lemma {:induction false} ExtendLength(values: seq<string>, combos: seq<seq<string>>)
    ensures |Extend(values, combos)| == |values| * |combos|
  {
    if values != [] { ExtendLength(values[1..], combos); }
  }

  /** The combinations are listed with the last axis varying fastest. */
  lemma CombinationsInOrder(axes: seq<seq<string>>, i: nat, j: nat)
    requires axes != [] && i < |axes[0]| && j < |Cartesian(axes[1..])|
    ensures var n := |Cartesian(axes[1..])|;
            && i * n + j < |Cartesian(axes)|
            && Cartesian(axes)[i * n + j] == [axes[0][i]] + Cartesian(axes[1..])[j]
  {
    ExtendAt(axes[0], Cartesian(axes[1..]), i, j);
  }

  // --------------------------------------------------- what is typed, cleaned

  /** Stripping takes blanks off both ends and nothing else. */
  lemma {:induction false} StripIs(s: string) returns (before: string, after: string)
    ensures s == before + Strip(s) + after
    ensures (forall c :: c in before ==> IsSpace(c)) && (forall c :: c in after ==> IsSpace(c))
    ensures Strip(s) != [] ==> !IsSpace(Strip(s)[0]) && !IsSpace(Strip(s)[|Strip(s)| - 1])
    decreases |s|
  {
    before, after := [], [];
    if s != [] && IsSpace(s[0]) {
      before, after := StripIs(s[1..]);
      assert s == [s[0]] + s[1..];
      before := [s[0]] + before;
    } else if s != [] && IsSpace(s[|s| - 1]) {
      before, after := StripIs(s[..|s| - 1]);
      assert s == s[..|s| - 1] + [s[|s| - 1]];
      after := after + [s[|s| - 1]];
    }
  }

  /** Values are kept in the order they first appear: typing more only adds at the end. */
  lemma {:induction false} CleanedInOrder(values: seq<string>, more: seq<string>)
    ensures Cleaned(values) <= Cleaned(values + more)
  {
    if more == [] {
      assert values + more == values;
    } else {
      var n := |more| - 1;
      CleanedInOrder(values, more[..n]);
      assert (values + more)[..|values| + n] == values + more[..n];
    }
  }

  /** Axes without values drop out and the others keep their order. */
  lemma {:induction false} LiveAxesInOrder(axes: seq<Axis>, more: seq<Axis>, all: seq<Axis>)
    requires all == axes + more
    ensures LiveAxes(all) == LiveAxes(axes) + LiveAxes(more)
  {
    if more == [] {
      assert all == axes;
    } else {
      var front, last := more[..|more| - 1], more[|more| - 1];
      assert more == front + [last];
      LiveAxesInOrder(axes, front, axes + front);
      LiveAxesStep(axes + front, last, all);
      LiveAxesStep(front, last, more);
      Regroup(LiveAxes(axes), LiveAxes(front), LiveAlone(last));
    }
  }

  lemma Regroup<T>(a: seq<T>, b: seq<T>, c: seq<T>)
    ensures a + (b + c) == a + b + c
  {
  }

  function LiveAlone(axis: Axis): seq<Axis> { if axis.values == [] then [] else [axis] }

  lemma LiveAxesStep(axes: seq<Axis>, axis: Axis, all: seq<Axis>)
    requires all == axes + [axis]
    ensures LiveAxes(all) == LiveAxes(axes) + LiveAlone(axis)
  {
    assert all[..|axes|] == axes;
  }

  /** The default row without options drops out and the others keep their order. */
  lemma {:induction false} KeptInOrder(rows: seq<Row>, more: seq<Row>, all: seq<Row>)
    requires all == rows + more
    ensures Kept(all) == Kept(rows) + Kept(more)
  {
    if more == [] {
      assert all == rows;
    } else {
      var front, last := more[..|more| - 1], more[|more| - 1];
      assert more == front + [last];
      KeptInOrder(rows, front, rows + front);
      KeptStep(rows + front, last, all);
      KeptStep(front, last, more);
      Regroup(Kept(rows), Kept(front), KeptAlone(last));
    }
  }

  function KeptAlone(row: Row): seq<Row> { if row.isDefault && row.options == map[] then [] else [row] }

  lemma KeptStep(rows: seq<Row>, row: Row, all: seq<Row>)
    requires all == rows + [row]
    ensures Kept(all) == Kept(rows) + KeptAlone(row)
  {
    assert all[..|rows|] == rows;
  }

  // ------------------------------------------------------------ the calls

  /** The default row: called "Default", no options, SKU after the title. */
  ghost predicate DefaultMade(row: Row, title: string, used: set<string>) {
    && row.name == "Default" && row.options == map[] && row.isDefault
    && SkuGiven(row.sku, Slug(title) + "-STD", used)
  }

  /** A product gets its default row unless it has one; nothing else changes. */
  ghost predicate DefaultEnsured(before: seq<Row>, after: seq<Row>, title: string, foreign: set<string>) {
    if exists i :: 0 <= i < |before| && before[i].isDefault then after == before
    else |after| == |before| + 1 && after[..|before|] == before
         && DefaultMade(after[|before|], title, foreign + SkusOf(before))
  }

  lemma DefaultWrites(title: string, rows: seq<Row>, foreign: set<string>)
    ensures DefaultEnsured(rows, WithDefault(title, rows, foreign), title, foreign)
  {
    UniqueSkuIsGiven(Join("-", [Slug(title), "STD"]), foreign + SkusOf(rows));
    assert [Slug(title), "STD"][1..] == ["STD"];
    assert Join("-", [Slug(title), "STD"]) == Slug(title) + "-STD";
  }

  /** The rows generation leaves: the default alone without a live axis, and otherwise the
      rows kept and a variant for every combination they lack. */
  ghost predicate RowsGenerated(before: Listing, after: seq<Row>, foreign: set<string>) {
    var axes, kept := LiveAxes(before.axes), Kept(before.rows);
    if axes == [] then DefaultEnsured(before.rows, after, before.title, foreign)
    else
      && kept <= after
      && (forall i :: |kept| <= i < |after| ==> MadeNew(after, i, before.title, axes, foreign))
      && (forall combo :: Fits(Values(axes), combo) ==> HasOptions(after, Zip(Names(axes), combo)))
  }

  ghost predicate MadeNew(rows: seq<Row>, i: nat, title: string, axes: seq<Axis>, foreign: set<string>)
    requires i < |rows|
  {
    && !HasOptions(rows[..i], rows[i].options)
    && exists combo :: Fits(Values(axes), combo)
                       && VariantMade(rows[i], title, Names(axes), combo, foreign + SkusOf(rows[..i]))
  }

  lemma GenerationWrites(listing: Listing, foreign: set<string>)
    ensures RowsGenerated(listing, NextRows(listing, foreign), foreign)
  {
    var axes, kept := LiveAxes(listing.axes), Kept(listing.rows);
    DefaultWrites(listing.title, listing.rows, foreign);
    if axes != [] {
      var final := Generated(listing.title, axes, listing.rows, foreign);
      CombosFit(axes);
      MintPrefix(listing.title, Names(axes), Cartesian(Values(axes)), kept, foreign);
      forall i | |kept| <= i < |final| ensures MadeNew(final, i, listing.title, axes, foreign) {
        var combo := GeneratedWrites(listing.title, axes, listing.rows, foreign, i);
      }
      forall combo | Fits(Values(axes), combo) ensures HasOptions(final, Zip(Names(axes), combo)) {
        GeneratedCovers(listing.title, axes, listing.rows, foreign, combo);
      }
    }
  }

  /** The axes as stored: names stripped, values stripped, blanks and repetitions dropped. */
  predicate AxesStored(typed: seq<Axis>, stored: seq<Axis>) {
    |stored| == |typed| && forall i :: 0 <= i < |typed| ==>
      stored[i].name == Strip(typed[i].name) && stored[i].values == Cleaned(typed[i].values)
  }

  predicate SameNameTwice(typed: seq<Axis>) {
    exists i, j :: 0 <= i < j < |typed| && Strip(typed[i].name) == Strip(typed[j].name)
  }

  lemma AxesClashIff(typed: seq<Axis>)
    ensures AxesStored(typed, CleanAxes(typed))
    ensures Clash(Names(CleanAxes(typed))) <==> SameNameTwice(typed)
  {
    var names := Names(CleanAxes(typed));
    forall i | 0 <= i < |typed| ensures names[i] == Strip(typed[i].name) { }
    if SameNameTwice(typed) {
      var i, j :| 0 <= i < j < |typed| && Strip(typed[i].name) == Strip(typed[j].name);
      assert names[i] == names[j];
    }
    if Clash(names) {
      var i, j :| 0 <= i < j < |names| && names[i] == names[j];
      assert Strip(typed[i].name) == Strip(typed[j].name);
    }
  }

  /** One product is stored and no other is touched. */
  predicate StoredOnly(before: Catalog, after: Catalog, id: nat) {
    after.Keys == before.Keys + {id} && forall q :: q in before && q != id ==> after[q] == before[q]
  }

  predicate NameTwice(rows: seq<Row>) { exists i, j :: 0 <= i < j < |rows| && rows[i].name == rows[j].name }

  lemma NamesClash(rows: seq<Row>)
    ensures Clash(RowNames(rows)) <==> NameTwice(rows)
  {
    if NameTwice(rows) {
      var i, j :| 0 <= i < j < |rows| && rows[i].name == rows[j].name;
      assert RowNames(rows)[i] == RowNames(rows)[j];
    }
    if Clash(RowNames(rows)) {
      var i, j :| 0 <= i < j < |RowNames(rows)| && RowNames(rows)[i] == RowNames(rows)[j];
      assert rows[i].name == rows[j].name;
    }
  }

  /** Creating a product stores its title, its cleaned axes and its generated variants. */
  lemma CreateWrites(catalog: Catalog, id: nat, title: string, axes: seq<Axis>) returns (rows: seq<Row>)
    ensures var e := Create(catalog, id, title, axes);
            if id in catalog then e == Refused(ProductExists)
            else if SameNameTwice(axes) then e == Refused(AxisNameTaken)
            else
              && RowsGenerated(Listing(title, CleanAxes(axes), []), rows, Foreign(catalog, id))
              && AxesStored(axes, CleanAxes(axes))
              && if NameTwice(rows) then e == Refused(NameTaken)
                 else e == Committed(catalog[id := Listing(title, CleanAxes(axes), rows)])
                      && StoredOnly(catalog, e.value, id)
  {
    AxesClashIff(axes);
    rows := NextRows(Listing(title, CleanAxes(axes), []), Foreign(catalog, id));
    GenerationWrites(Listing(title, CleanAxes(axes), []), Foreign(catalog, id));
    NamesClash(rows);
  }

  /** Rewriting the axes keeps the title and every row; without variants the default row is
      added. */
  lemma SetAxesWrites(catalog: Catalog, id: nat, axes: seq<Axis>, hasVariants: bool) returns (rows: seq<Row>)
    ensures var e := SetAxes(catalog, id, axes, hasVariants);
            if id !in catalog then e == Refused(UnknownProduct)
            else if SameNameTwice(axes) then e == Refused(AxisNameTaken)
            else
              && (if hasVariants then rows == catalog[id].rows
                  else DefaultEnsured(catalog[id].rows, rows, catalog[id].title, Foreign(catalog, id)))
              && AxesStored(axes, CleanAxes(axes))
              && if !hasVariants && NameTwice(rows) then e == Refused(NameTaken)
                 else e == Committed(catalog[id := Listing(catalog[id].title, CleanAxes(axes), rows)])
                      && StoredOnly(catalog, e.value, id)
  {
    AxesClashIff(axes);
    rows := [];
    if id in catalog {
      rows := if hasVariants then catalog[id].rows
              else WithDefault(catalog[id].title, catalog[id].rows, Foreign(catalog, id));
      DefaultWrites(catalog[id].title, catalog[id].rows, Foreign(catalog, id));
      NamesClash(rows);
    }
  }

  /** Generating keeps the title and the axes; a default row somebody points at stops it when
      it would have to go. */
  lemma GenerateWrites(catalog: Catalog, id: nat, inUse: bool) returns (rows: seq<Row>)
    ensures var e := Generate(catalog, id, inUse);
            if id !in catalog then e == Refused(UnknownProduct)
            else if LiveAxes(catalog[id].axes) != [] && inUse && |Kept(catalog[id].rows)| < |catalog[id].rows|
            then e == Refused(DefaultInUse)
            else
              && RowsGenerated(catalog[id], rows, Foreign(catalog, id))
              && if NameTwice(rows) then e == Refused(NameTaken)
                 else e == Committed(catalog[id := Listing(catalog[id].title, catalog[id].axes, rows)])
                      && StoredOnly(catalog, e.value, id)
  {
    rows := [];
    if id in catalog {
      rows := NextRows(catalog[id], Foreign(catalog, id));
      GenerationWrites(catalog[id], Foreign(catalog, id));
      NamesClash(rows);
    }
  }
}
