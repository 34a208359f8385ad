/** Symbol normalisation and the alias lists of backend/providers/contract_symbol_map.py. */
module SymbolMap {
  import opened Text

  const COMMODITIES: set<string> := {
    "GOLD", "GOLDM", "GOLDGUINEA", "GOLDPETAL", "SILVER", "SILVERM", "SILVERMIC", "COPPER", "COPPERM",
    "CRUDEOIL", "CRUDEOILM", "NATURALGAS", "NATGASMINI", "ALUMINIUM", "ALUMINI", "ZINC", "ZINCMINI",
    "LEAD", "LEADMINI", "NICKEL", "MENTHOIL", "COTTONCNDY", "KAPAS",
    "COTTON", "CASTORSEED", "SOYBEAN", "GUARSEED", "RMSEED", "CHANA"}

  /** A renamed ticker: its legacy name and the live one. */
  datatype Rename = Rename(legacy: string, live: string)

  /** The two tables of the source: `_CANONICAL_EQUITY_ALIASES`, by canonical symbol, and
      `_LEGACY_NSE_TICKER_ALIASES`, by ticker without suffix. */
  datatype Tables = Tables(aliases: map<string, string>, legacy: seq<Rename>)

  const TABLES := Tables(map["TATAMOTORS.NS" := "TMPV.NS"], [Rename("TATAMOTORS", "TMPV")])

  predicate EndsWith(s: string, suffix: string) {
    |suffix| <= |s| && s[|s| - |suffix|..] == suffix
  }

  predicate IsCanonical(s: string, commodities: set<string>) {
    "^" <= s || EndsWith(s, ".NS") || EndsWith(s, ".BO") || s in commodities
  }

  /** `_normalize_equity_canonical`, for any set of commodity names. */
  function Canonical(symbol: string, commodities: set<string>): string {
    var clean := Normalize(symbol);
    if clean == "" || IsCanonical(clean, commodities) then clean else clean + ".NS"
  }

  /** `s.replace(part, "")`. */
  function Remove(s: string, part: string): string
    requires part != ""
  {
    if |s| < |part| then s
    else if part <= s then Remove(s[|part|..], part)
    else [s[0]] + Remove(s[1..], part)
  }

  function BaseName(s: string): string { Remove(Remove(s, ".NS"), ".BO") }

  /** Drops repeated entries and those in `skip`, keeping first occurrences. */
  function Distinct(xs: seq<string>, skip: set<string>): seq<string> {
    if xs == [] then []
    else
      var before, x := Distinct(xs[..|xs| - 1], skip), xs[|xs| - 1];
      if x !in skip && x !in before then before + [x] else before
  }

  method Deduped(xs: seq<string>, skip: set<string>) returns (r: seq<string>)
    ensures r == Distinct(xs, skip)
  {
    r := [];
    for i := 0 to |xs|
      invariant r == Distinct(xs[..i], skip)
    {
      assert xs[..i + 1][..i] == xs[..i];
      if xs[i] !in skip && xs[i] !in r {
        r := r + [xs[i]];
      }
    }
    assert xs[..|xs|] == xs;
  }

  /** A rename of the second table, as canonical symbols. */
  function Suffixed(r: Rename): Rename { Rename(r.legacy + ".NS", r.live + ".NS") }

  /** The live symbol of the first table, empty if there is none. */
  function LiveName(aliases: map<string, string>, canonical: string): string {
    if canonical in aliases then aliases[canonical] else ""
  }

  /** The live symbols of the second table, in table order. */
  function LiveNames(legacy: seq<Rename>, canonical: string): seq<string> {
    if legacy == [] then []
    else
      var r := Suffixed(legacy[|legacy| - 1]);
      LiveNames(legacy[..|legacy| - 1], canonical) + (if canonical == r.legacy then [r.live] else [])
  }

  /** `redis_price_lookup_symbols`: a live symbol of the first table comes before the legacy one, one
      that only the second table knows comes after it. */
  function LookupOrder(symbol: string, tables: Tables, commodities: set<string>): seq<string> {
    var canonical := Canonical(symbol, commodities);
    if canonical == "" then []
    else
      var live := LiveName(tables.aliases, canonical);
      var ordered := if live != "" then [live, canonical] else [canonical] + LiveNames(tables.legacy, canonical);
      Distinct(ordered + [BaseName(canonical)], {""})
  }

  method LookupKeys(symbol: string, tables: Tables, commodities: set<string>) returns (keys: seq<string>)
    ensures keys == LookupOrder(symbol, tables, commodities)
  {
    var canonical := Canonical(symbol, commodities);
    if canonical == "" {
      return [];
    }
    var live := LiveName(tables.aliases, canonical);
    var ordered := [];
    if live != "" {
      ordered := [live, canonical];
    } else {
      ordered := [canonical];
      for i := 0 to |tables.legacy|
        invariant ordered == [canonical] + LiveNames(tables.legacy[..i], canonical)
      {
        assert tables.legacy[..i + 1][..i] == tables.legacy[..i];
        var r := Suffixed(tables.legacy[i]);
        if canonical == r.legacy {
          ordered := ordered + [r.live];
        }
      }
      assert tables.legacy[..|tables.legacy|] == tables.legacy;
    }
    keys := Deduped(ordered + [BaseName(canonical)], {""});
  }

  /** The counterparts of a canonical symbol in the second table, in table order. */
  function Counterparts(legacy: seq<Rename>, canonical: string): seq<string> {
    if legacy == [] then []
    else
      var r := Suffixed(legacy[|legacy| - 1]);
      Counterparts(legacy[..|legacy| - 1], canonical)
      + (if canonical == r.live then [r.legacy] else if canonical == r.legacy then [r.live] else [])
  }

  /** `mirror_canonicals_for_quote`. */
  function Mirrors(symbol: string, tables: Tables, commodities: set<string>): seq<string> {
    var canonical := Canonical(symbol, commodities);
    Distinct([canonical] + Counterparts(tables.legacy, canonical), {})
  }

  method MirrorKeys(symbol: string, tables: Tables, commodities: set<string>) returns (keys: seq<string>)
    ensures keys == Mirrors(symbol, tables, commodities)
  {
    var canonical := Canonical(symbol, commodities);
    keys := [canonical];
    for i := 0 to |tables.legacy|
      invariant keys == [canonical] + Counterparts(tables.legacy[..i], canonical)
    {
      assert tables.legacy[..i + 1][..i] == tables.legacy[..i];
      var r := Suffixed(tables.legacy[i]);
      if canonical == r.live {
        keys := keys + [r.legacy];
      } else if canonical == r.legacy {
        keys := keys + [r.live];
      }
    }
    assert tables.legacy[..|tables.legacy|] == tables.legacy;
    keys := Deduped(keys, {});
  }

  // ---------------------------------------------------------------------------------------
  // Lookup meets mirror
  // ---------------------------------------------------------------------------------------

  /** The renames of the second table. */
  ghost function Renames(legacy: seq<Rename>): set<Rename> { set i | 0 <= i < |legacy| :: Suffixed(legacy[i]) }

  /** A table without chains: no symbol is renamed twice or into a legacy name. */
  ghost predicate NoChains(legacy: seq<Rename>) {
    && (forall p, q :: p in Renames(legacy) && q in Renames(legacy) ==> p.live != q.legacy)
    && (forall p, q :: p in Renames(legacy) && q in Renames(legacy) && p.legacy == q.legacy ==> p == q)
  }

  /** Every rename of the first table is in the second one too. */
  ghost predicate Consistent(tables: Tables) {
    forall x :: x in tables.aliases && tables.aliases[x] != "" ==> Rename(x, tables.aliases[x]) in Renames(tables.legacy)
  }

  lemma TablesAreConsistent()
    ensures NoChains(TABLES.legacy) && Consistent(TABLES)
  {
    assert Suffixed(TABLES.legacy[0]) == Rename("TATAMOTORS.NS", "TMPV.NS");
    assert Renames(TABLES.legacy) == {Rename("TATAMOTORS.NS", "TMPV.NS")};
    assert "TMPV.NS"[1] != "TATAMOTORS.NS"[1];
  }

  lemma {:induction false} DistinctKeeps(xs: seq<string>, skip: set<string>)
    ensures forall x :: x in Distinct(xs, skip) <==> x in xs && x !in skip
    ensures xs != [] && xs[0] !in skip ==> Distinct(xs, skip) != [] && Distinct(xs, skip)[0] == xs[0]
  {
    if xs != [] {
      var before := xs[..|xs| - 1];
      DistinctKeeps(before, skip);
      assert xs == before + [xs[|xs| - 1]];
    }
  }

  lemma RenamesLast(legacy: seq<Rename>)
    requires legacy != []
    ensures Renames(legacy) == Renames(legacy[..|legacy| - 1]) + {Suffixed(legacy[|legacy| - 1])}
  {
    var n := |legacy| - 1;
    forall r | r in Renames(legacy[..n]) ensures r in Renames(legacy) {
      var i :| 0 <= i < n && Suffixed(legacy[..n][i]) == r;
      assert Suffixed(legacy[i]) == r;
    }
    forall r | r in Renames(legacy) ensures r in Renames(legacy[..n]) + {Suffixed(legacy[n])} {
      var i :| 0 <= i < |legacy| && Suffixed(legacy[i]) == r;
      if i < n {
        assert Suffixed(legacy[..n][i]) == r;
      }
    }
  }

  lemma {:induction false} CounterpartsAre(legacy: seq<Rename>, x: string, y: string)
    requires forall r :: r in Renames(legacy) ==> r.live != r.legacy
    ensures y in Counterparts(legacy, x) <==> Rename(x, y) in Renames(legacy) || Rename(y, x) in Renames(legacy)
  {
    if legacy != [] {
      RenamesLast(legacy);
      CounterpartsAre(legacy[..|legacy| - 1], x, y);
    }
  }

  /** MAIN: what a canonical symbol is: the cleaned symbol itself if it names an index, an exchange or a commodity
      already, and otherwise the NSE listing of that name. */
  lemma CanonicalNamesListing(symbol: string, commodities: set<string>)
    ensures var clean, c := Normalize(symbol), Canonical(symbol, commodities);
            var named := || (clean != "" && clean[0] == '^')
                         || (exists name :: clean == name + ".NS") || (exists name :: clean == name + ".BO")
                         || clean in commodities;
            && (clean == "" || named ==> c == clean)
            && (clean != "" && !named ==> c == clean + ".NS")
  {
    var clean := Normalize(symbol);
    assert "^" <= clean <==> clean != "" && clean[0] == '^';
    EndsWithIs(clean, ".NS");
    EndsWithIs(clean, ".BO");
  }

  lemma EndsWithIs(s: string, suffix: string)
    ensures EndsWith(s, suffix) <==> exists front :: s == front + suffix
  {
    if EndsWith(s, suffix) {
      assert s == s[..|s| - |suffix|] + suffix;
    }
    if front :| s == front + suffix {
      assert s[|front|..] == suffix;
    }
  }

  /** The base name of a listing is the name without its exchange. */
  lemma BaseNameOfListing(name: string)
    requires '.' !in name
    ensures BaseName(name + ".NS") == name && BaseName(name + ".BO") == name && BaseName(name) == name
  {
    RemoveAtEnd(name, ".NS");
    RemoveAtEnd(name, ".BO");
    RemoveNothing(name, ".NS");
    RemoveNothing(name, ".BO");
    RemoveNothing(name + ".BO", ".NS");
  }

  lemma {:induction false} RemoveAtEnd(name: string, part: string)
    requires '.' !in name && |part| == 3 && part[0] == '.'
    ensures Remove(name + part, part) == name
  {
    if name == [] {
      assert name + part == part && part[3..] == [];
    } else {
      RemoveAtEnd(name[1..], part);
      assert (name + part)[1..] == name[1..] + part;
      assert (name + part)[0] == name[0];
    }
  }

  lemma {:induction false} RemoveNothing(s: string, part: string)
    requires |part| == 3 && part[0] == '.' && forall i :: 0 <= i < |s| - 2 ==> s[i] != '.' || s[i + 1] != part[1]
    ensures Remove(s, part) == s
  {
    if |s| >= 3 {
      assert s[0] != part[0] || s[1] != part[1];
      assert forall i :: 0 <= i < |s[1..]| ==> s[1..][i] == s[i + 1];
      RemoveNothing(s[1..], part);
      assert [s[0]] + s[1..] == s;
    }
  }

  ghost predicate NoRepeats(xs: seq<string>) {
    forall i, j :: 0 <= i < j < |xs| ==> xs[i] != xs[j]
  }

  lemma {:induction false} DistinctHasNoRepeats(xs: seq<string>, skip: set<string>)
    ensures NoRepeats(Distinct(xs, skip))
  {
    if xs != [] {
      DistinctHasNoRepeats(xs[..|xs| - 1], skip);
    }
  }

  lemma {:induction false} LiveNamesAre(legacy: seq<Rename>, x: string, y: string)
    ensures y in LiveNames(legacy, x) <==> Rename(x, y) in Renames(legacy)
  {
    if legacy != [] {
      RenamesLast(legacy);
      LiveNamesAre(legacy[..|legacy| - 1], x, y);
    }
  }

  /** MAIN: the keys a reader tries, each once: its live name first if the first table has one, then the canonical
      symbol, what only the second table renames it to, and the bare name. */
  lemma LookupKeysAre(symbol: string, tables: Tables, commodities: set<string>, x: string)
    requires Normalize(symbol) != ""
    ensures var y, order := Canonical(symbol, commodities), LookupOrder(symbol, tables, commodities);
            var renamed := y in tables.aliases && tables.aliases[y] != "";
            && NoRepeats(order) && order != [] && order[0] == (if renamed then tables.aliases[y] else y)
            && (x in order <==> x != "" && (|| x == y || x == BaseName(y)
                                            || (renamed && x == tables.aliases[y])
                                            || (!renamed && Rename(y, x) in Renames(tables.legacy))))
  {
    var y := Canonical(symbol, commodities);
    var live := LiveName(tables.aliases, y);
    var ordered := if live != "" then [live, y] else [y] + LiveNames(tables.legacy, y);
    LiveNamesAre(tables.legacy, y, x);
    DistinctKeeps(ordered + [BaseName(y)], {""});
    DistinctHasNoRepeats(ordered + [BaseName(y)], {""});
  }

  /** MAIN: the keys a writer mirrors to, each once: the canonical symbol first, and both directions of every
      rename. */
  lemma MirrorKeysAre(symbol: string, tables: Tables, commodities: set<string>, x: string)
    requires forall r :: r in Renames(tables.legacy) ==> r.live != r.legacy
    ensures var y, keys := Canonical(symbol, commodities), Mirrors(symbol, tables, commodities);
            && NoRepeats(keys) && keys != [] && keys[0] == y
            && (x in keys <==> x == y || Rename(x, y) in Renames(tables.legacy) || Rename(y, x) in Renames(tables.legacy))
  {
    var y := Canonical(symbol, commodities);
    CounterpartsAre(tables.legacy, y, x);
    DistinctKeeps([y] + Counterparts(tables.legacy, y), {});
    DistinctHasNoRepeats([y] + Counterparts(tables.legacy, y), {});
  }

  lemma CanonicalTwice(symbol: string, commodities: set<string>)
    ensures Canonical(Normalize(symbol), commodities) == Canonical(symbol, commodities)
    ensures Canonical(symbol, commodities) == "" <==> Normalize(symbol) == ""
  {
    NormalizeIsNormal(symbol);
  }

  /** MAIN: for any consistent tables without chains, the first key a reader tries is one of the keys
      the writer of the same class mirrors to. */
  lemma FirstLookupIsMirrored(c: string, s: string, tables: Tables, commodities: set<string>)
    requires NoChains(tables.legacy) && Consistent(tables)
    requires Canonical(s, commodities) in Mirrors(c, tables, commodities)
    ensures var order := LookupOrder(s, tables, commodities);
            if Canonical(s, commodities) == "" then order == []
            else order != [] && order[0] in Mirrors(c, tables, commodities)
  {
    var x, y := Canonical(c, commodities), Canonical(s, commodities);
    var live := LiveName(tables.aliases, y);
    DistinctKeeps([x] + Counterparts(tables.legacy, x), {});
    var ordered := if live != "" then [live, y] else [y] + LiveNames(tables.legacy, y);
    DistinctKeeps(ordered + [BaseName(y)], {""});
    CounterpartsAre(tables.legacy, x, y);
    CounterpartsAre(tables.legacy, x, live);
  }
}
