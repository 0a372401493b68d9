/**
 * The custom TypeORM naming strategy: short, deterministic names for primary
 * keys, foreign keys, unique constraints and indices, refused when longer
 * than the 63 characters PostgreSQL allows for an identifier.
 */
module NamingStrategy {
  import opened Wrappers
  import Sorting

  const MaxIdentifierLength: nat := 63

  datatype NamingError =
    | NameTooLong(name: string)   // the generated name exceeds 63 characters
    | WhereUndefined              // `where.includes` on an index without a condition

  // ---------------------------------------------------------------- strings

  /** `parts.join(sep)`; `Split` below proves it undoes `split` for a one-character separator. */
  function Join(parts: seq<string>, sep: string): (r: string)
    ensures |parts| == 1 ==> r == parts[0]
  {
    if parts == [] then ""
    else if |parts| == 1 then parts[0]
    else parts[0] + sep + Join(parts[1..], sep)
  }

  /** `s.split(sep)` for a one-character separator: the pieces between separators, empty ones included. */
  function Split(s: string, sep: char): (parts: seq<string>)
    ensures |parts| >= 1
    ensures forall i :: 0 <= i < |parts| ==> sep !in parts[i]
    ensures Join(parts, [sep]) == s
  {
    if s == [] then [""]
    else
      var rest := Split(s[1..], sep);
      if s[0] == sep then
        assert s == [sep] + s[1..];
        [""] + rest
      else
        assert s == [s[0]] + s[1..];
        assert Join([[s[0]] + rest[0]] + rest[1..], [sep]) == [s[0]] + Join(rest, [sep]);
        [[s[0]] + rest[0]] + rest[1..]
  }

  /** `s.includes(sub)` */
  predicate Contains(s: string, sub: string) {
    (|sub| <= |s| && s[..|sub|] == sub) || (s != [] && Contains(s[1..], sub))
  }

  /** The strings of `xs` that are not empty, in order (`filter((str) => !!str)`). */
  function NonEmpty(xs: seq<string>): (r: seq<string>)
    ensures forall s :: s in r <==> s in xs && s != ""
    ensures |r| <= |xs|
  {
    if xs == [] then []
    else if xs[0] == "" then NonEmpty(xs[1..])
    else [xs[0]] + NonEmpty(xs[1..])
  }

  /** `xs.filter((c) => c !== x)` */
  function Without(xs: seq<string>, x: string): (r: seq<string>)
    ensures forall y :: multiset(r)[y] == if y == x then 0 else multiset(xs)[y]
  {
    if xs == [] then []
    else
      assert xs == [xs[0]] + xs[1..];
      if xs[0] == x then Without(xs[1..], x) else [xs[0]] + Without(xs[1..], x)
  }

  /** The default string order of `Array.prototype.sort`: lexicographic by character. */
  predicate LexLe(a: string, b: string) {
    a == [] || (b != [] && (a[0] < b[0] || (a[0] == b[0] && LexLe(a[1..], b[1..]))))
  }

  lemma {:induction false} LexLeTotal(a: string, b: string)
    ensures LexLe(a, b) || LexLe(b, a)
    decreases |a|
  {
    if a != [] && b != [] && a[0] == b[0] {
      LexLeTotal(a[1..], b[1..]);
    }
  }

  lemma {:induction false} LexLeTransitive(a: string, b: string, c: string)
    requires LexLe(a, b) && LexLe(b, c)
    ensures LexLe(a, c)
    decreases |a|
  {
    if a != [] && b != [] && c != [] && a[0] == b[0] == c[0] {
      LexLeTransitive(a[1..], b[1..], c[1..]);
    }
  }

  lemma {:induction false} LexLeAntisymmetric(a: string, b: string)
    requires LexLe(a, b) && LexLe(b, a)
    ensures a == b
    decreases |a|
  {
    if a != [] {
      LexLeAntisymmetric(a[1..], b[1..]);
      assert a == [a[0]] + a[1..] && b == [b[0]] + b[1..];
    }
  }

  lemma LexLeAntisymmetricOn(m: multiset<string>)
    ensures Sorting.AntisymmetricOn(m, LexLe)
  {
    forall a, b | a in m && b in m && LexLe(a, b) && LexLe(b, a)
      ensures a == b
    {
      LexLeAntisymmetric(a, b);
    }
  }

  lemma LexLeTotalPreorder()
    ensures Sorting.TotalPreorder(LexLe)
  {
    forall a, b
      ensures LexLe(a, b) || LexLe(b, a)
    {
      LexLeTotal(a, b);
    }
    forall a, b, c | LexLe(a, b) && LexLe(b, c)
      ensures LexLe(a, c)
    {
      LexLeTransitive(a, b, c);
    }
  }

  /** `columnNamesNoDeletedAt.sort()` */
  function SortStrings(xs: seq<string>): (r: seq<string>)
    ensures multiset(r) == multiset(xs)
    ensures Sorting.Sorted(r, LexLe)
  {
    LexLeTotalPreorder();
    Sorting.InsertionSort(xs, LexLe)
  }

  /** Two lists of the same strings sort to the same list. */
  lemma SortStringsCanonical(xs: seq<string>, ys: seq<string>)
    requires multiset(xs) == multiset(ys)
    ensures SortStrings(xs) == SortStrings(ys)
  {
    LexLeAntisymmetricOn(multiset(xs));
    Sorting.SortedUnique(SortStrings(xs), SortStrings(ys), LexLe);
  }

  // ---------------------------------------------------------------- column abbreviation

  /** customReduce: `id` stays, `datetime` is `dt`, anything else its first character. */
  function CustomReduce(columnName: string): (r: string)
    ensures columnName == "id" ==> r == "id"
    ensures columnName == "datetime" ==> r == "dt"
    ensures |r| <= 2
    ensures r == "" <==> columnName == ""
    ensures columnName != "id" && columnName != "datetime" ==> r == columnName[..if columnName == "" then 0 else 1]
  {
    if columnName == "id" then "id"
    else if columnName == "datetime" then "dt"
    else if columnName == "" then ""
    else columnName[..1]
  }

  function MapReduce(parts: seq<string>): (r: seq<string>)
    ensures |r| == |parts|
    ensures forall i :: 0 <= i < |parts| ==> r[i] == CustomReduce(parts[i])
  {
    if parts == [] then [] else [CustomReduce(parts[0])] + MapReduce(parts[1..])
  }

  function MapReduceColumnName(names: seq<string>): (r: seq<string>)
    ensures |r| == |names|
    ensures forall i :: 0 <= i < |names| ==> r[i] == ReduceColumnName(names[i])
  {
    if names == [] then [] else [ReduceColumnName(names[0])] + MapReduceColumnName(names[1..])
  }

  /** reduceColumnName: a name without `_` is reduced whole; otherwise each `_`-separated word is. */
  function ReduceColumnName(columnName: string): string {
    if '_' !in columnName then CustomReduce(columnName)
    else Join(MapReduce(Split(columnName, '_')), "")
  }

  /** Both branches are the word-by-word abbreviation: a name without `_` is one word. */
  lemma ReduceColumnNameIsWordwise(columnName: string)
    ensures ReduceColumnName(columnName) == Join(MapReduce(Split(columnName, '_')), "")
  {
    if '_' !in columnName {
      SplitNoSeparator(columnName, '_');
    }
  }

  /** A name of two words is abbreviated word by word. */
  lemma ReduceTwoWords(first: string, second: string)
    requires '_' !in first && '_' !in second
    ensures ReduceColumnName(first + "_" + second) == CustomReduce(first) + CustomReduce(second)
  {
    var s := first + "_" + second;
    SplitTwoWords(first, second);
    assert s[|first|] == '_';
    var r1, r2 := CustomReduce(first), CustomReduce(second);
    assert MapReduce([first, second]) == [r1, r2];
    JoinTwo(r1, r2);
  }

  lemma SplitTwoWords(first: string, second: string)
    requires '_' !in first && '_' !in second
    ensures Split(first + "_" + second, '_') == [first, second]
  {
    var s := first + "_" + second;
    assert s[|first|] == '_' && s[..|first|] == first && s[|first| + 1..] == second;
    SplitAt(s, '_', |first|);
    SplitNoSeparator(second, '_');
  }

  lemma JoinTwo(a: string, b: string)
    ensures Join([a, b], "") == a + b
  {
    assert [a, b][1..] == [b];
  }

  /** `prediction_datetime` is abbreviated `pdt`. */
  lemma ReducePredictionDatetime(columnName: string)
    requires columnName == "prediction_datetime"
    ensures ReduceColumnName(columnName) == "pdt"
  {
    ReduceTwoWords("prediction", "datetime");
    assert "prediction" + "_" + "datetime" == columnName;
  }

  /** `station_id` is abbreviated `sid`. */
  lemma ReduceStationId(columnName: string)
    requires columnName == "station_id"
    ensures ReduceColumnName(columnName) == "sid"
  {
    ReduceTwoWords("station", "id");
    assert "station" + "_" + "id" == columnName;
  }

  lemma {:induction false} SplitNoSeparator(s: string, sep: char)
    requires sep !in s
    ensures Split(s, sep) == [s]
    decreases |s|
  {
    if s != [] {
      SplitNoSeparator(s[1..], sep);
    }
  }

  /** Splitting at the first separator: the word before it, then the split of the rest. */
  lemma {:induction false} SplitAt(s: string, sep: char, k: nat)
    requires k < |s| && s[k] == sep && sep !in s[..k]
    ensures Split(s, sep) == [s[..k]] + Split(s[k + 1..], sep)
    decreases k
  {
    if k > 0 {
      assert s[1..][..k - 1] == s[1..k];
      SplitAt(s[1..], sep, k - 1);
      assert s[1..][k..] == s[k + 1..];
      assert s[..k] == [s[0]] + s[1..k];
    }
  }

  // ---------------------------------------------------------------- names

  /** checkIdentifierNameLength: the name itself when it fits in 63 characters, an error otherwise. */
  function CheckIdentifierNameLength(name: string): (r: Result<string, NamingError>)
    ensures r.Success? <==> |name| <= MaxIdentifierLength
    ensures r.Success? ==> r.value == name
    ensures r.Failure? ==> r.error == NameTooLong(name)
  {
    if |name| > MaxIdentifierLength then Failure(NameTooLong(name)) else Success(name)
  }

  /** primaryKeyName: `idx_pk_<table>_<columns joined by _>`. */
  function PrimaryKeyName(tableName: string, columnNames: seq<string>): (r: Result<string, NamingError>)
    ensures r.Success? ==> |r.value| <= MaxIdentifierLength
    ensures r.Success? <==> 8 + |tableName| + |Join(columnNames, "_")| <= MaxIdentifierLength
    ensures r.Success? ==> |r.value| == 8 + |tableName| + |Join(columnNames, "_")|
    ensures r.Success? ==> r.value[..7] == "idx_pk_"
    ensures r.Success? ==> r.value[7..7 + |tableName|] == tableName && r.value[7 + |tableName|] == '_'
    ensures r.Success? ==> r.value[8 + |tableName|..] == Join(columnNames, "_")
    ensures r.Failure? ==> r.error.NameTooLong?
  {
    CheckIdentifierNameLength("idx_pk_" + tableName + "_" + Join(columnNames, "_"))
  }

  /** foreignKeyName: `fk`, the table and the columns, empty ones dropped, joined by `_`. */
  function ForeignKeyName(tableName: string, columnNames: seq<string>): (r: Result<string, NamingError>)
    ensures r.Success? ==> |r.value| <= MaxIdentifierLength
    ensures r.Failure? <==> |Join(NonEmpty(["fk", tableName] + columnNames), "_")| > MaxIdentifierLength
    ensures r.Failure? ==> r.error.NameTooLong?
  {
    CheckIdentifierNameLength(Join(NonEmpty(["fk", tableName] + columnNames), "_"))
  }

  /**
   * With no empty name among them, the foreign key name joins all of them
   * after `fk`, and is refused exactly when that is longer than 63 characters.
   */
  lemma ForeignKeyNameKeepsEveryNonEmptyName(tableName: string, columnNames: seq<string>)
    requires tableName != "" && forall c :: c in columnNames ==> c != ""
    ensures ForeignKeyName(tableName, columnNames) == CheckIdentifierNameLength(Join(["fk", tableName] + columnNames, "_"))
    ensures ForeignKeyName(tableName, columnNames).Failure?
      <==> |Join(["fk", tableName] + columnNames, "_")| > MaxIdentifierLength
  {
    NonEmptyOfNonEmpty(["fk", tableName] + columnNames);
  }

  lemma {:induction false} NonEmptyOfNonEmpty(xs: seq<string>)
    requires forall s :: s in xs ==> s != ""
    ensures NonEmpty(xs) == xs
    decreases |xs|
  {
    if xs != [] {
      assert forall s :: s in xs[1..] ==> s in xs;
      assert xs[0] in xs && xs == [xs[0]] + xs[1..];
      NonEmptyOfNonEmpty(xs[1..]);
    }
  }

  /** An empty table or column name leaves no empty segment behind. */
  lemma ForeignKeyNameDropsEmptyNames(tableName: string, columnNames: seq<string>)
    ensures ForeignKeyName(tableName, columnNames) == ForeignKeyName(tableName, NonEmpty(columnNames))
    ensures ForeignKeyName("", columnNames) == CheckIdentifierNameLength(Join(["fk"] + NonEmpty(columnNames), "_"))
  {
    NonEmptyAppend(["fk", tableName], columnNames);
    NonEmptyAppend(["fk", tableName], NonEmpty(columnNames));
    NonEmptyIdempotent(columnNames);
    NonEmptyAppend(["fk", ""], columnNames);
    assert NonEmpty(["fk", ""]) == ["fk"];
  }

  lemma {:induction false} NonEmptyAppend(xs: seq<string>, ys: seq<string>)
    ensures NonEmpty(xs + ys) == NonEmpty(xs) + NonEmpty(ys)
    decreases |xs|
  {
    if xs == [] {
      assert xs + ys == ys;
    } else {
      assert (xs + ys)[1..] == xs[1..] + ys;
      assert (xs + ys)[0] == xs[0];
      NonEmptyAppend(xs[1..], ys);
    }
  }

  lemma NonEmptyIdempotent(xs: seq<string>)
    ensures NonEmpty(NonEmpty(xs)) == NonEmpty(xs)
  {
    NonEmptyOfNonEmpty(NonEmpty(xs));
  }

  /** The abbreviated, sorted column part of a unique-constraint name, `deleted_at` left out. */
  function ReducedColumns(columnNames: seq<string>): string {
    Join(MapReduceColumnName(SortStrings(Without(columnNames, "deleted_at"))), "_")
  }

  /**
   * uniqueConstraintName: `<table>_<reduced sorted columns>_deleted_unique`
   * when the columns include `deleted_at`, `..._undeleted_unique` otherwise.
   */
  function UniqueConstraintName(tableName: string, columnNames: seq<string>): (r: Result<string, NamingError>)
    ensures r.Success? ==> |r.value| <= MaxIdentifierLength
    ensures r.Success? <==>
      |tableName| + |ReducedColumns(columnNames)| + (if "deleted_at" in columnNames then 16 else 18) <= MaxIdentifierLength
    ensures r.Failure? ==> r.error.NameTooLong?
  {
    CheckIdentifierNameLength(UniqueName(tableName, ReducedColumns(columnNames), "deleted_at" in columnNames))
  }

  /** `${tableName}_${columns}_${hasDeletedAt ? 'deleted' : 'undeleted'}_unique` */
  function UniqueName(tableName: string, columns: string, hasDeletedAt: bool): (r: string)
    ensures |r| == |tableName| + |columns| + if hasDeletedAt then 16 else 18
  {
    tableName + "_" + columns + "_" + (if hasDeletedAt then "deleted" else "undeleted") + "_unique"
  }

  /** The name does not depend on the order the columns are listed in. */
  lemma UniqueConstraintNameIgnoresOrder(tableName: string, columnNames1: seq<string>, columnNames2: seq<string>)
    requires multiset(columnNames1) == multiset(columnNames2)
    ensures UniqueConstraintName(tableName, columnNames1) == UniqueConstraintName(tableName, columnNames2)
  {
    var w1 := Without(columnNames1, "deleted_at");
    var w2 := Without(columnNames2, "deleted_at");
    assert multiset(w1) == multiset(w2) by {
      forall y ensures multiset(w1)[y] == multiset(w2)[y] {
      }
    }
    SortStringsCanonical(w1, w2);
    assert "deleted_at" in columnNames1 <==> "deleted_at" in columnNames2 by {
      assert "deleted_at" in columnNames1 <==> "deleted_at" in multiset(columnNames1);
      assert "deleted_at" in columnNames2 <==> "deleted_at" in multiset(columnNames2);
    }
  }

  /** The suffix tells whether `deleted_at` is one of the columns. */
  lemma UniqueConstraintNameSuffix(tableName: string, columnNames: seq<string>)
    requires UniqueConstraintName(tableName, columnNames).Success?
    ensures var name := UniqueConstraintName(tableName, columnNames).value;
      && |name| >= 15
      && (name[|name| - 15..] == "_deleted_unique" <==> "deleted_at" in columnNames)
      && ("deleted_at" !in columnNames ==> name[|name| - 17..] == "_undeleted_unique")
  {
    UniqueNameSuffix(tableName, ReducedColumns(columnNames), "deleted_at" in columnNames);
  }

  lemma UniqueNameSuffix(tableName: string, columns: string, hasDeletedAt: bool)
    ensures var name := UniqueName(tableName, columns, hasDeletedAt);
      && |name| >= 15
      && (name[|name| - 15..] == "_deleted_unique" <==> hasDeletedAt)
      && (!hasDeletedAt ==> name[|name| - 17..] == "_undeleted_unique")
  {
    var name := UniqueName(tableName, columns, hasDeletedAt);
    var prefix := tableName + "_" + columns;
    if hasDeletedAt {
      assert name == prefix + "_deleted_unique";
      EndsWith(prefix, "_deleted_unique");
    } else {
      assert name == prefix + "_undeleted_unique";
      assert name == (prefix + "_u") + "ndeleted_unique";
      EndsWith(prefix, "_undeleted_unique");
      EndsWith(prefix + "_u", "ndeleted_unique");
      assert "ndeleted_unique"[0] != "_deleted_unique"[0];
    }
  }

  lemma EndsWith(prefix: string, suffix: string)
    ensures (prefix + suffix)[|prefix + suffix| - |suffix|..] == suffix
  {
  }

  /** The column part never mentions `deleted_at`, only the other columns, sorted. */
  lemma ReducedColumnsLeaveOutDeletedAt(columnNames: seq<string>)
    ensures "deleted_at" !in SortStrings(Without(columnNames, "deleted_at"))
    ensures forall c :: c in columnNames && c != "deleted_at" ==> c in SortStrings(Without(columnNames, "deleted_at"))
  {
    var sorted := SortStrings(Without(columnNames, "deleted_at"));
    assert multiset(sorted)["deleted_at"] == 0;
    forall c | c in columnNames && c != "deleted_at"
      ensures c in sorted
    {
      assert multiset(columnNames)[c] > 0;
      assert multiset(sorted)[c] > 0;
    }
  }

  /**
   * indexName: the unique-constraint name behind `idx_` for a unique index on
   * soft-deleted rows (`deleted_at` a column and the condition keeps
   * `deleted_at IS NOT NULL` rows) or on live rows (`deleted_at` not a column
   * and the condition keeps `deleted_at IS NULL` rows); otherwise the default
   * name. Without a condition `where.includes` throws.
   */
  function IndexName(tableName: string, columnNames: seq<string>, where: Option<string>, defaultName: string)
    : (r: Result<string, NamingError>)
    ensures r.Success? ==> |r.value| <= MaxIdentifierLength
    ensures where.None? ==> r == Failure(WhereUndefined)
  {
    var hasDeletedAt := "deleted_at" in columnNames;
    if hasDeletedAt && (where.None? || Contains(where.value, "deleted_at IS NOT NULL")) then
      if where.None? then Failure(WhereUndefined)
      else
        var unique := UniqueConstraintName(tableName, columnNames);
        if unique.Failure? then unique else CheckIdentifierNameLength("idx_" + unique.value)
    else if !hasDeletedAt && (where.None? || Contains(where.value, "deleted_at IS NULL")) then
      if where.None? then Failure(WhereUndefined)
      else
        var unique := UniqueConstraintName(tableName, columnNames);
        if unique.Failure? then unique else CheckIdentifierNameLength("idx_" + unique.value)
    else
      CheckIdentifierNameLength(defaultName)
  }

  /**
   * The two soft-delete cases name the index after the unique constraint, or
   * rethrow its too-long error; any other falls back to the default.
   */
  lemma IndexNameCases(tableName: string, columnNames: seq<string>, where: string, defaultName: string)
    ensures var softDeleteUnique :=
        || ("deleted_at" in columnNames && Contains(where, "deleted_at IS NOT NULL"))
        || ("deleted_at" !in columnNames && Contains(where, "deleted_at IS NULL"));
      && (softDeleteUnique && UniqueConstraintName(tableName, columnNames).Success? ==>
            IndexName(tableName, columnNames, Some(where), defaultName)
              == CheckIdentifierNameLength("idx_" + UniqueConstraintName(tableName, columnNames).value))
      && (softDeleteUnique && UniqueConstraintName(tableName, columnNames).Failure? ==>
            IndexName(tableName, columnNames, Some(where), defaultName) == UniqueConstraintName(tableName, columnNames))
      && (!softDeleteUnique ==>
            IndexName(tableName, columnNames, Some(where), defaultName) == CheckIdentifierNameLength(defaultName))
  {
  }
}
