/** The helpers of src/lib/utils.ts. */
module Utils {
  import opened Wrappers
  import opened Strings
  import opened Seqs
  import opened Sorting
  import opened Catalog

  // ------------------------------------------------------ calculateDuration

  /** Whole months from `start` to `end`, counting calendar months only. */
  function MonthsBetween(start: YearMonth, end: YearMonth): int
  {
    (end.year - start.year) * 12 + (end.month - start.month)
  }

  /** The unit word for a count: singular exactly when the count is 1. */
  function UnitWord(n: int, unit: string): string
  {
    if n == 1 then unit else unit + "s"
  }

  /** "n unit", the unit agreeing with n. */
  function Counted(n: int, unit: string): string
  {
    IntToString(n) + " " + UnitWord(n, unit)
  }

  /** The text `calculateDuration` builds from a month count. */
  function DurationText(months: int): string
  {
    if months < 12 then Counted(months, "month")
    else
      var years := months / 12;
      var remaining := months % 12;
      if remaining == 0 then Counted(years, "year")
      else Counted(years, "year") + " " + Counted(remaining, "month")
  }

  /** `calculateDuration(start, end)`; an absent end date means "now",
      which the caller supplies instead of reading the clock. The text
      reads back as the month count, and no other text does. */
  function CalculateDuration(start: YearMonth, end: Option<YearMonth>, now: YearMonth): (text: string)
    ensures ParseDuration(text) == Some(MonthsBetween(start, if end.Some? then end.value else now))
    ensures forall t :: ParseDuration(t) == Some(MonthsBetween(start, if end.Some? then end.value else now)) ==> t == text
  {
    DurationRoundTrip(MonthsBetween(start, if end.Some? then end.value else now));
    DurationTextIsOnlyReading(MonthsBetween(start, if end.Some? then end.value else now));
    DurationText(MonthsBetween(start, if end.Some? then end.value else now))
  }

  /** Reads a duration text back as months. Only the forms the site writes
      are accepted: "n month(s)" for fewer than twelve months, "y year(s)"
      for y >= 1 whole years, and "y year(s) m month(s)" with 1 <= m <= 11.
      Numbers are written as `String(n)` writes them, and each unit word is
      singular exactly when its number is 1. */
  function ParseDuration(text: string): Option<int>
  {
    var w := Split(text, ' ');
    if |w| == 2 then
      match ParseInt(w[0])
      case Some(n) =>
        if w[0] != IntToString(n) then None
        else if n < 12 && w[1] == UnitWord(n, "month") then Some(n)
        else if n >= 1 && w[1] == UnitWord(n, "year") then Some(n * 12)
        else None
      case None => None
    else if |w| == 4 then
      match (ParseInt(w[0]), ParseInt(w[2]))
      case (Some(y), Some(m)) =>
        if w[0] == IntToString(y) && w[2] == IntToString(m) && y >= 1 && 1 <= m <= 11
           && w[1] == UnitWord(y, "year") && w[3] == UnitWord(m, "month")
        then Some(y * 12 + m)
        else None
      case _ => None
    else None
  }

  lemma CountedWords(n: int, unit: string)
    requires ' ' !in unit
    ensures Split(Counted(n, unit), ' ') == [IntToString(n), UnitWord(n, unit)]
  {
    var u := UnitWord(n, unit);
    assert ' ' !in u;
    assert Counted(n, unit) == IntToString(n) + [' '] + u;
    SplitAppend(IntToString(n), u, ' ');
    SplitNoSep(IntToString(n), ' ');
    SplitNoSep(u, ' ');
  }

  lemma PairWords(years: int, remaining: int)
    ensures Split(Counted(years, "year") + " " + Counted(remaining, "month"), ' ')
      == [IntToString(years), UnitWord(years, "year"),
          IntToString(remaining), UnitWord(remaining, "month")]
  {
    var a := Counted(years, "year");
    var b := Counted(remaining, "month");
    CountedWords(years, "year");
    CountedWords(remaining, "month");
    assert a + " " + b == a + [' '] + b;
    SplitAppend(a, b, ' ');
  }

  /** The words of the duration text for `months`. */
  function DurationWords(months: int): seq<string>
  {
    if months < 12 then [IntToString(months), UnitWord(months, "month")]
    else if months % 12 == 0 then [IntToString(months / 12), UnitWord(months / 12, "year")]
    else [IntToString(months / 12), UnitWord(months / 12, "year"),
          IntToString(months % 12), UnitWord(months % 12, "month")]
  }

  lemma DurationTextWords(months: int)
    ensures Split(DurationText(months), ' ') == DurationWords(months)
  {
    if months < 12 {
      CountedWords(months, "month");
    } else if months % 12 == 0 {
      CountedWords(months / 12, "year");
    } else {
      PairWords(months / 12, months % 12);
    }
  }

  /** No year word is a month word. */
  lemma UnitWordsDiffer(a: int, b: int)
    ensures UnitWord(a, "year") != UnitWord(b, "month")
  {
    assert UnitWord(a, "year")[0] == 'y';
    assert UnitWord(b, "month")[0] == 'm';
  }

  /** The duration text reads back as the month count it was built from.
      Below a year it is "n month(s)"; on whole years "y year(s)"; otherwise
      "y year(s) m month(s)" with m from 1 to 11. Each unit is singular
      exactly when its number is 1. */
  lemma DurationRoundTrip(months: int)
    ensures ParseDuration(DurationText(months)) == Some(months)
    ensures var w := Split(DurationText(months), ' ');
      && |w| == (if months < 12 || months % 12 == 0 then 2 else 4)
      && (months < 12 ==> w[1] == (if months == 1 then "month" else "months"))
      && (months >= 12 ==> w[1] == (if months / 12 == 1 then "year" else "years"))
      && (|w| == 4 ==> ParseInt(w[2]).Some? && 1 <= ParseInt(w[2]).value <= 11)
      && (|w| == 4 ==> w[3] == (if months % 12 == 1 then "month" else "months"))
  {
    DurationTextWords(months);
    var w := DurationWords(months);
    assert "month" + "s" == "months" && "year" + "s" == "years";
    if months < 12 {
      IntToStringRoundTrip(months);
    } else {
      var years := months / 12;
      var remaining := months % 12;
      assert months == years * 12 + remaining;
      IntToStringRoundTrip(years);
      IntToStringRoundTrip(remaining);
      UnitWordsDiffer(years, years);
    }
  }

  /** Only the duration text of `months` reads back as `months`: the
      reading is exact, so the words the site writes are fixed. */
  lemma DurationTextIsOnly(text: string, months: int)
    requires ParseDuration(text) == Some(months)
    ensures text == DurationText(months)
  {
    var w := Split(text, ' ');
    JoinSplit(text, ' ');
    JoinSplit(DurationText(months), ' ');
    DurationTextWords(months);
    if |w| == 2 {
      var n := ParseInt(w[0]).value;
      if n < 12 && w[1] == UnitWord(n, "month") {
        assert w == DurationWords(months);
      } else {
        assert months == n * 12 && n >= 1;
        assert months / 12 == n && months % 12 == 0;
        assert w == DurationWords(months);
      }
    } else {
      var y, m := ParseInt(w[0]).value, ParseInt(w[2]).value;
      assert months == y * 12 + m;
      assert months / 12 == y && months % 12 == m;
      assert w == DurationWords(months);
    }
  }

  lemma DurationTextIsOnlyReading(months: int)
    ensures forall t :: ParseDuration(t) == Some(months) ==> t == DurationText(months)
  {
    forall t | ParseDuration(t) == Some(months) {
      DurationTextIsOnly(t, months);
    }
  }

  // ----------------------------------------------------------- truncateText

  /** The end index `text.slice(0, end)` uses: a negative `end` counts back
      from the length, and the index is clipped to the text. */
  function SliceEnd(length: nat, end: int): (k: nat)
    ensures k <= length
  {
    if end < 0 then (if length + end < 0 then 0 else length + end)
    else if end < length then end
    else length
  }

  /** `truncateText(text, maxLength)`. */
  function TruncateText(text: string, maxLength: int): string
  {
    if |text| <= maxLength then text
    else Trim(text[..SliceEnd(|text|, maxLength)]) + "..."
  }

  /** Short text is returned as it is. Longer text becomes its first
      `maxLength` characters with the surrounding whitespace trimmed (the
      characterisation of `Trim` is `TrimKeepsCore`), followed by "...", so
      at most `maxLength + 3` characters. */
  lemma TruncateTextBounds(text: string, maxLength: nat)
    ensures |text| <= maxLength ==> TruncateText(text, maxLength) == text
    ensures |text| > maxLength ==> TruncateText(text, maxLength) == Trim(text[..maxLength]) + "..."
    ensures |text| > maxLength ==>
      var r := TruncateText(text, maxLength);
      && |r| <= maxLength + 3
      && r[|r| - 3..] == "..."
      && IsSubsequence(r[..|r| - 3], text[..maxLength])
      && (r[..|r| - 3] == [] || (!IsSpace(r[0]) && !IsSpace(r[|r| - 4])))
  {
    if |text| > maxLength {
      var head := text[..maxLength];
      var start := TrimKeepsCore(head);
      var r := TruncateText(text, maxLength);
      assert r[..|r| - 3] == Trim(head);
      SliceIsSubsequence(head, start, start + |Trim(head)|);
    }
  }

  lemma {:induction false} SliceIsSubsequence(s: string, i: nat, j: nat)
    requires i <= j <= |s|
    ensures IsSubsequence(s[i..j], s)
    decreases |s|
  {
    if i < j {
      if i == 0 {
        SliceIsSubsequence(s[1..], 0, j - 1);
        assert s[1..][0..j - 1] == s[i..j][1..];
      } else {
        SliceIsSubsequence(s[1..], i - 1, j - 1);
        assert s[1..][i - 1..j - 1] == s[i..j];
      }
    }
  }

  // ---------------------------------------------------------------- slugify

  /** The regular-expression class `\w`: ASCII letters, digits, underscore. */
  predicate IsWordChar(c: char)
  {
    'a' <= c <= 'z' || 'A' <= c <= 'Z' || '0' <= c <= '9' || c == '_'
  }

  /** The characters that `[^\w\s-]` leaves in place. */
  predicate IsSlugSafe(c: char)
  {
    IsWordChar(c) || IsSpace(c) || c == '-'
  }

  /** The class `[\s_-]`. */
  predicate IsSeparator(c: char)
  {
    IsSpace(c) || c == '_' || c == '-'
  }

  predicate IsAlnum(c: char)
  {
    'a' <= c <= 'z' || 'A' <= c <= 'Z' || '0' <= c <= '9'
  }

  /** The index just past the run of separators that starts at `i`. */
  function SeparatorRunEnd(s: string, i: nat): (j: nat)
    requires i <= |s|
    ensures i <= j <= |s|
    ensures forall k :: i <= k < j ==> IsSeparator(s[k])
    ensures j == |s| || !IsSeparator(s[j])
    decreases |s| - i
  {
    if i < |s| && IsSeparator(s[i]) then SeparatorRunEnd(s, i + 1) else i
  }

  /** Skips a run of separators at the front. */
  function DropSeparators(s: string): string
  {
    s[SeparatorRunEnd(s, 0)..]
  }

  /** `.replace(/[\s_-]+/g, "-")`: each maximal run of separators becomes one dash. */
  function CollapseSeparators(s: string): string
    decreases |s|
  {
    if s == [] then []
    else if IsSeparator(s[0]) then "-" + CollapseSeparators(DropSeparators(s))
    else [s[0]] + CollapseSeparators(s[1..])
  }

  /** The index just past the run of dashes that starts at `i`. */
  function DashRunEnd(s: string, i: nat): (j: nat)
    requires i <= |s|
    ensures i <= j <= |s|
    ensures forall k :: i <= k < j ==> s[k] == '-'
    ensures j == |s| || s[j] != '-'
    decreases |s| - i
  {
    if i < |s| && s[i] == '-' then DashRunEnd(s, i + 1) else i
  }

  /** The index where the run of dashes that ends just before `j` starts. */
  function DashRunStart(s: string, j: nat): (i: nat)
    requires j <= |s|
    ensures i <= j
    ensures forall k :: i <= k < j ==> s[k] == '-'
    ensures i == 0 || s[i - 1] != '-'
    decreases j
  {
    if j > 0 && s[j - 1] == '-' then DashRunStart(s, j - 1) else j
  }

  function DropLeadingDashes(s: string): string
  {
    s[DashRunEnd(s, 0)..]
  }

  function DropTrailingDashes(s: string): string
  {
    s[..DashRunStart(s, |s|)]
  }

  /** `.replace(/^-+|-+$/g, "")`. */
  function TrimDashes(s: string): string
  {
    DropTrailingDashes(DropLeadingDashes(s))
  }

  /** `slugify(text)`. */
  function Slugify(text: string): string
  {
    TrimDashes(CollapseSeparators(Filter(Lower(text), IsSlugSafe)))
  }

  predicate IsSlugChar(c: char)
  {
    'a' <= c <= 'z' || '0' <= c <= '9' || c == '-'
  }

  predicate NoDoubleDash(s: string)
  {
    forall i :: 0 <= i < |s| - 1 ==> !(s[i] == '-' && s[i + 1] == '-')
  }

  /** A slug: lower-case letters, digits and single dashes, no dash at either
      end (so no upper case, no whitespace, no underscore). */
  predicate IsSlug(s: string)
  {
    (forall i :: 0 <= i < |s| ==> IsSlugChar(s[i]))
    && NoDoubleDash(s)
    && (s == [] || (s[0] != '-' && s[|s| - 1] != '-'))
  }

  /** What is left after lowering and removing unsafe characters. */
  predicate LoweredSafe(s: string)
  {
    forall i :: 0 <= i < |s| ==> IsSlugSafe(s[i]) && !IsUpperAscii(s[i])
  }

  lemma FilterLoweredSafe(text: string)
    ensures LoweredSafe(Filter(Lower(text), IsSlugSafe))
  {
    var f := Filter(Lower(text), IsSlugSafe);
    forall i | 0 <= i < |f| ensures !IsUpperAscii(f[i]) {
      FilterCount(Lower(text), IsSlugSafe, f[i]);
      assert f[i] in multiset(f);
      assert f[i] in Lower(text);
    }
  }

  lemma {:induction false} CollapseShape(s: string)
    requires LoweredSafe(s)
    ensures var r := CollapseSeparators(s);
      (forall i :: 0 <= i < |r| ==> IsSlugChar(r[i])) && NoDoubleDash(r)
    decreases |s|
  {
    var r := CollapseSeparators(s);
    if s != [] {
      if IsSeparator(s[0]) {
        var d := DropSeparators(s);
        assert LoweredSafe(d) by {
          forall i | 0 <= i < |d| ensures IsSlugSafe(d[i]) && !IsUpperAscii(d[i]) {
            assert d[i] == s[|s| - |d| + i];
          }
        }
        CollapseShape(d);
        var c := CollapseSeparators(d);
        assert r == "-" + c;
        assert c == [] || c[0] == d[0];
      } else {
        assert LoweredSafe(s[1..]) by {
          forall i | 0 <= i < |s| - 1 ensures IsSlugSafe(s[1..][i]) && !IsUpperAscii(s[1..][i]) {
            assert s[1..][i] == s[i + 1];
          }
        }
        CollapseShape(s[1..]);
        var c := CollapseSeparators(s[1..]);
        assert r == [s[0]] + c;
      }
    }
  }

  lemma TrimDashesShape(s: string)
    requires (forall i :: 0 <= i < |s| ==> IsSlugChar(s[i])) && NoDoubleDash(s)
    ensures IsSlug(TrimDashes(s))
  {
    var a := DropLeadingDashes(s);
    var r := DropTrailingDashes(a);
    var off := |s| - |a|;
    assert r == s[off..off + |r|];
    forall i | 0 <= i < |r| ensures IsSlugChar(r[i]) {
      assert r[i] == s[off + i];
    }
    forall i | 0 <= i < |r| - 1 ensures !(r[i] == '-' && r[i + 1] == '-') {
      assert r[i] == s[off + i] && r[i + 1] == s[off + i + 1];
    }
    if r != [] {
      assert r[0] == a[0];
    }
  }

  /** The slug contains only lower-case ASCII letters, digits and single
      dashes, and neither starts nor ends with a dash. */
  lemma SlugifyIsSlug(text: string)
    ensures IsSlug(Slugify(text))
  {
    var f := Filter(Lower(text), IsSlugSafe);
    FilterLoweredSafe(text);
    CollapseShape(f);
    TrimDashesShape(CollapseSeparators(f));
  }

  lemma {:induction false} CollapseKeepsSlug(s: string)
    requires (forall i :: 0 <= i < |s| ==> IsSlugChar(s[i])) && NoDoubleDash(s)
    ensures CollapseSeparators(s) == s
    decreases |s|
  {
    if s != [] {
      assert forall i :: 0 <= i < |s| - 1 ==> s[1..][i] == s[i + 1];
      CollapseKeepsSlug(s[1..]);
      if s[0] == '-' {
        assert DropSeparators(s) == s[1..] by {
          if |s| > 1 {
            assert s[1] != '-' && !IsSeparator(s[1]);
          }
        }
      }
    }
  }

  /** A slug is its own slug. */
  lemma SlugifyFixesSlugs(s: string)
    requires IsSlug(s)
    ensures Slugify(s) == s
  {
    assert Lower(s) == s;
    FilterKeepsAll(s, IsSlugSafe);
    CollapseKeepsSlug(s);
  }

  /** Applying slugify twice is the same as applying it once. */
  lemma SlugifyIdempotent(text: string)
    ensures Slugify(Slugify(text)) == Slugify(text)
  {
    SlugifyIsSlug(text);
    SlugifyFixesSlugs(Slugify(text));
  }

  lemma {:induction false} CollapseKeepsAlnum(s: string)
    ensures Filter(CollapseSeparators(s), IsAlnum) == Filter(s, IsAlnum)
    decreases |s|
  {
    if s != [] {
      if IsSeparator(s[0]) {
        var d := DropSeparators(s);
        CollapseKeepsAlnum(d);
        FilterAppend("-", CollapseSeparators(d), IsAlnum);
        assert Filter("-", IsAlnum) == [];
        FilterIgnoresRejected(s, |s| - |d|, |s|, IsAlnum);
        assert s[|s| - |d|..|s|] == d;
      } else {
        CollapseKeepsAlnum(s[1..]);
        FilterAppend([s[0]], CollapseSeparators(s[1..]), IsAlnum);
      }
    }
  }

  /** No letter or digit is lost: the slug's letters and digits are those
      of the lowered text, in order. */
  lemma SlugifyKeepsAlnum(text: string)
    ensures Filter(Slugify(text), IsAlnum) == Filter(Lower(text), IsAlnum)
  {
    var f := Filter(Lower(text), IsSlugSafe);
    FilterThenFilter(Lower(text), IsSlugSafe, IsAlnum);
    CollapseKeepsAlnum(f);
    TrimDashesKeepsAlnum(CollapseSeparators(f));
  }

  lemma TrimDashesKeepsAlnum(c: string)
    ensures Filter(TrimDashes(c), IsAlnum) == Filter(c, IsAlnum)
  {
    var l := DashRunEnd(c, 0);
    var a := c[l..];
    var e := DashRunStart(a, |a|);
    assert TrimDashes(c) == c[l..l + e];
    forall k | l + e <= k < |c| ensures !IsAlnum(c[k]) {
      assert c[k] == a[k - l];
    }
    FilterIgnoresRejected(c, l, l + e, IsAlnum);
  }

  // ---------------------------------------------------------------- groupBy

  /** The keys `groupBy` produces: `String(item[key])` of each item. */
  function KeysOf<T>(items: seq<T>, keyOf: T -> string): set<string>
  {
    set i | 0 <= i < |items| :: keyOf(items[i])
  }

  /** The test "is grouped under `k`". */
  function HasKey<T>(keyOf: T -> string, k: string): T -> bool
  {
    x => keyOf(x) == k
  }

  /** The intended grouping: one group per key that occurs, holding the
      items with that key in input order. */
  function Grouped<T(!new)>(items: seq<T>, keyOf: T -> string): map<string, seq<T>>
  {
    map k | k in KeysOf(items, keyOf) :: Filter(items, HasKey(keyOf, k))
  }

  /** Adding one item appends it to its own group and touches no other. */
  lemma GroupedAppend<T(!new)>(items: seq<T>, x: T, keyOf: T -> string)
    ensures var g := Grouped(items, keyOf);
      Grouped(items + [x], keyOf)
        == g[keyOf(x) := (if keyOf(x) in g then g[keyOf(x)] else []) + [x]]
  {
    var g := Grouped(items, keyOf);
    var g' := Grouped(items + [x], keyOf);
    var k := keyOf(x);
    assert KeysOf(items + [x], keyOf) == KeysOf(items, keyOf) + {k} by {
      forall j | j in KeysOf(items + [x], keyOf) ensures j in KeysOf(items, keyOf) + {k} {
        var i :| 0 <= i < |items| + 1 && keyOf((items + [x])[i]) == j;
        if i < |items| { assert (items + [x])[i] == items[i]; }
      }
      forall j | j in KeysOf(items, keyOf) ensures j in KeysOf(items + [x], keyOf) {
        var i :| 0 <= i < |items| && keyOf(items[i]) == j;
        assert (items + [x])[i] == items[i];
      }
      assert (items + [x])[|items|] == x;
    }
    forall j | j in g'.Keys
      ensures g'[j] == g[k := (if k in g then g[k] else []) + [x]][j]
    {
      FilterAppend(items, [x], HasKey(keyOf, j));
      if j == k && k !in g {
        FilterEmptyIff(items, HasKey(keyOf, k));
      }
    }
  }

  /** `groupBy(array, key)`: the reduce that fills a dictionary of lists. */
  method GroupBy<T(!new)>(items: seq<T>, keyOf: T -> string) returns (groups: map<string, seq<T>>)
    ensures groups == Grouped(items, keyOf)
  {
    groups := map[];
    for i := 0 to |items|
      invariant groups == Grouped(items[..i], keyOf)
    {
      var k := keyOf(items[i]);
      if k !in groups {
        groups := groups[k := []];
      }
      GroupedAppend(items[..i], items[i], keyOf);
      assert items[..i + 1] == items[..i] + [items[i]];
      groups := groups[k := groups[k] + [items[i]]];
    }
    assert items[..|items|] == items;
  }

  /** Every item sits in exactly the group of its own key, with all its
      occurrences; each group keeps input order; the keys are exactly the
      keys of the items. */
  lemma GroupedPlacesEachItem<T(!new)>(items: seq<T>, keyOf: T -> string, x: T)
    ensures Grouped(items, keyOf).Keys == KeysOf(items, keyOf)
    ensures x in items ==> (keyOf(x) in Grouped(items, keyOf)
      && multiset(Grouped(items, keyOf)[keyOf(x)])[x] == multiset(items)[x])
    ensures forall k :: k in Grouped(items, keyOf) && k != keyOf(x) ==>
      x !in Grouped(items, keyOf)[k]
    ensures forall k :: k in Grouped(items, keyOf) ==> IsSubsequence(Grouped(items, keyOf)[k], items)
  {
    var g := Grouped(items, keyOf);
    if x in items {
      var i :| 0 <= i < |items| && items[i] == x;
      assert keyOf(x) in KeysOf(items, keyOf);
      FilterCount(items, HasKey(keyOf, keyOf(x)), x);
    }
    forall k | k in g && k != keyOf(x) ensures x !in g[k] {
      FilterCount(items, HasKey(keyOf, k), x);
    }
    forall k | k in g ensures IsSubsequence(g[k], items) {
      FilterIsSubsequence(items, HasKey(keyOf, k));
    }
  }

  /** Names every plain object inherits from `Object.prototype`. Looking one
      of them up in `{}` gives a function or an object, never `undefined`. */
  const ObjectPrototypeMembers: set<string> := {
    "constructor", "__proto__", "hasOwnProperty", "isPrototypeOf",
    "propertyIsEnumerable", "toString", "valueOf", "toLocaleString",
    "__defineGetter__", "__defineSetter__", "__lookupGetter__", "__lookupSetter__"}

  datatype GroupError = PushIsNotAFunction(key: string)

  /** The reduce as written, one item at a time from `acc`: `result[k]` on a
      plain object finds an inherited member for a prototype name, so the
      `!result[k]` test is false and `result[k].push` throws. */
  function GroupFromAsWritten<T>(acc: map<string, seq<T>>, items: seq<T>, keyOf: T -> string)
    : Result<map<string, seq<T>>, GroupError>
    decreases |items|
  {
    if items == [] then Ok(acc)
    else
      var k := keyOf(items[0]);
      if k in acc then GroupFromAsWritten(acc[k := acc[k] + [items[0]]], items[1..], keyOf)
      else if k in ObjectPrototypeMembers then Err(PushIsNotAFunction(k))
      else GroupFromAsWritten(acc[k := [items[0]]], items[1..], keyOf)
  }

  function GroupByAsWritten<T>(items: seq<T>, keyOf: T -> string): Result<map<string, seq<T>>, GroupError>
  {
    GroupFromAsWritten(map[], items, keyOf)
  }

  /** An item keyed by a prototype member name makes the code as written
      throw, where the intended grouping has a group for it. */
  lemma GroupByAsWrittenThrows<T(!new)>(x: T, keyOf: T -> string)
    requires keyOf(x) in ObjectPrototypeMembers
    ensures GroupByAsWritten([x], keyOf) == Err(PushIsNotAFunction(keyOf(x)))
    ensures Grouped([x], keyOf) == map[keyOf(x) := [x]]
  {
    assert KeysOf([x], keyOf) == {keyOf(x)};
    assert Filter([x], HasKey(keyOf, keyOf(x))) == [x];
  }

  lemma {:induction false} GroupFromAsWrittenAgrees<T(!new)>(done: seq<T>, rest: seq<T>, keyOf: T -> string)
    requires forall i :: 0 <= i < |rest| ==> keyOf(rest[i]) !in ObjectPrototypeMembers
    ensures GroupFromAsWritten(Grouped(done, keyOf), rest, keyOf) == Ok(Grouped(done + rest, keyOf))
    decreases |rest|
  {
    if rest == [] {
      assert done + rest == done;
    } else {
      var g := Grouped(done, keyOf);
      var x := rest[0];
      var k := keyOf(x);
      GroupedAppend(done, x, keyOf);
      if k in g {
        assert GroupFromAsWritten(g, rest, keyOf)
          == GroupFromAsWritten(g[k := g[k] + [x]], rest[1..], keyOf);
      } else {
        assert [] + [x] == [x];
        assert GroupFromAsWritten(g, rest, keyOf)
          == GroupFromAsWritten(g[k := [x]], rest[1..], keyOf);
      }
      GroupFromAsWrittenAgrees(done + [x], rest[1..], keyOf);
      assert done + [rest[0]] + rest[1..] == done + rest;
    }
  }

  /** Without prototype member names among the keys, the code as written
      computes the intended grouping. */
  lemma GroupByAsWrittenAgrees<T(!new)>(items: seq<T>, keyOf: T -> string)
    requires forall i :: 0 <= i < |items| ==> keyOf(items[i]) !in ObjectPrototypeMembers
    ensures GroupByAsWritten(items, keyOf) == Ok(Grouped(items, keyOf))
  {
    assert Grouped([], keyOf) == map[];
    GroupFromAsWrittenAgrees([], items, keyOf);
    assert [] + items == items;
  }

  // --------------------------------------------------- sortByDate, featured

  /** The comparator `dateB - dateA`: later start dates first. */
  function NewestFirst<T>(startTime: T -> int): T -> Rank
  {
    x => Rank(0, -startTime(x))
  }

  /** `sortByDate(items)`: a sorted copy, newest start date first, stable
      among equal dates; a permutation of the input. */
  method SortByDate<T(!new)>(items: seq<T>, startTime: T -> int) returns (r: seq<T>)
    ensures r == StableSort(items, NewestFirst(startTime))
    ensures multiset(r) == multiset(items)
    ensures forall i, j :: 0 <= i < j < |r| ==> startTime(r[i]) >= startTime(r[j])
  {
    r := SortCopy(items, NewestFirst(startTime));
    forall i, j | 0 <= i < j < |r| ensures startTime(r[i]) >= startTime(r[j]) {
      assert RankLe(NewestFirst(startTime)(r[i]), NewestFirst(startTime)(r[j]));
    }
  }

  /** `getFeaturedItems(items)`. */
  function GetFeaturedItems<T(!new)>(items: seq<T>, isFeatured: T -> bool): seq<T>
  {
    Filter(items, isFeatured)
  }

  /** Exactly the featured items, every occurrence, in input order. */
  lemma GetFeaturedItemsExact<T(!new)>(items: seq<T>, isFeatured: T -> bool, x: T)
    ensures IsSubsequence(GetFeaturedItems(items, isFeatured), items)
    ensures forall i :: 0 <= i < |GetFeaturedItems(items, isFeatured)| ==>
      isFeatured(GetFeaturedItems(items, isFeatured)[i])
    ensures multiset(GetFeaturedItems(items, isFeatured))[x]
      == if isFeatured(x) then multiset(items)[x] else 0
  {
    FilterIsSubsequence(items, isFeatured);
    FilterCount(items, isFeatured, x);
  }

  // ----------------------------------------------------------- formatNumber

  /** Inserts a comma before every group of three digits counted from the
      right, as `replace(/\B(?=(\d{3})+(?!\d))/g, ",")` does on a digit string. */
  function GroupThousands(digits: string): string
    decreases |digits|
  {
    if |digits| <= 3 then digits
    else GroupThousands(digits[..|digits| - 3]) + "," + digits[|digits| - 3..]
  }

  /** `formatNumber(num)` on an integer. */
  function FormatNumber(num: int): string
  {
    if num < 0 then "-" + GroupThousands(NatToString(-num)) else GroupThousands(NatToString(num))
  }

  predicate IsNotComma(c: char) { c != ',' }

  function RemoveCommas(s: string): string
  {
    Filter(s, IsNotComma)
  }

  lemma GroupThousandsShape(digits: string)
    requires 1 <= |digits| && AllDigits(digits)
    ensures RemoveCommas(GroupThousands(digits)) == digits
    ensures var g := Split(GroupThousands(digits), ',');
      && 1 <= |g[0]| <= 3
      && (forall i :: 1 <= i < |g| ==> |g[i]| == 3)
      && (forall i :: 0 <= i < |g| ==> AllDigits(g[i]))
  {
    GroupThousandsRemoveCommas(digits);
    GroupThousandsGroups(digits);
  }

  lemma {:induction false} GroupThousandsRemoveCommas(digits: string)
    requires AllDigits(digits)
    ensures RemoveCommas(GroupThousands(digits)) == digits
    decreases |digits|
  {
    var n := |digits|;
    if n <= 3 {
      assert forall i :: 0 <= i < n ==> IsNotComma(digits[i]);
      FilterKeepsAll(digits, IsNotComma);
    } else {
      var head := digits[..n - 3];
      var tail := digits[n - 3..];
      assert AllDigits(head) by {
        forall i | 0 <= i < |head| ensures IsDigit(head[i]) {
          assert head[i] == digits[i];
        }
      }
      GroupThousandsRemoveCommas(head);
      var gh := GroupThousands(head);
      assert GroupThousands(digits) == (gh + [',']) + tail;
      assert forall i :: 0 <= i < |tail| ==> IsNotComma(tail[i]) by {
        forall i | 0 <= i < |tail| ensures IsNotComma(tail[i]) {
          assert tail[i] == digits[n - 3 + i];
        }
      }
      FilterKeepsAll(tail, IsNotComma);
      RemoveCommasAround(gh, tail);
      assert head + tail == digits;
    }
  }

  lemma RemoveCommasAround(a: string, b: string)
    ensures RemoveCommas(a + [','] + b) == RemoveCommas(a) + RemoveCommas(b)
  {
    assert Filter([','], IsNotComma) == [];
    FilterAppend(a, [','], IsNotComma);
    FilterAppend(a + [','], b, IsNotComma);
  }

  lemma {:induction false} GroupThousandsGroups(digits: string)
    requires 1 <= |digits| && AllDigits(digits)
    ensures var g := Split(GroupThousands(digits), ',');
      && 1 <= |g[0]| <= 3
      && (forall i :: 1 <= i < |g| ==> |g[i]| == 3)
      && (forall i :: 0 <= i < |g| ==> AllDigits(g[i]))
    decreases |digits|
  {
    var n := |digits|;
    if n <= 3 {
      assert ',' !in digits;
      SplitNoSep(digits, ',');
    } else {
      var head := digits[..n - 3];
      var tail := digits[n - 3..];
      GroupThousandsGroups(head);
      var gh := GroupThousands(head);
      assert GroupThousands(digits) == gh + [','] + tail;
      assert ',' !in tail;
      SplitAppend(gh, tail, ',');
      SplitNoSep(tail, ',');
    }
  }

  /** Removing the commas gives back the plain decimal rendering, which
      reads back as the number. */
  lemma FormatNumberRoundTrip(num: int)
    ensures RemoveCommas(FormatNumber(num)) == IntToString(num)
    ensures ParseInt(RemoveCommas(FormatNumber(num))) == Some(num)
  {
    var m := if num < 0 then -num else num;
    GroupThousandsShape(NatToString(m));
    if num < 0 {
      FilterAppend("-", GroupThousands(NatToString(m)), IsNotComma);
    }
    IntToStringRoundTrip(num);
  }

  /** The comma-separated groups of a non-negative number: the first has one
      to three digits, every later one exactly three. */
  lemma FormatNumberGroups(num: nat)
    ensures var g := Split(FormatNumber(num), ',');
      && 1 <= |g[0]| <= 3
      && (forall i :: 1 <= i < |g| ==> |g[i]| == 3)
      && (forall i :: 0 <= i < |g| ==> AllDigits(g[i]))
  {
    GroupThousandsShape(NatToString(num));
  }

  /** Numbers of fewer than four digits are left as they are. */
  lemma FormatNumberSmall(num: int)
    requires -1000 < num < 1000
    ensures FormatNumber(num) == IntToString(num)
  {
    NatToStringShort(if num < 0 then -num else num);
  }

  // ------------------------------------------------------------------ clamp

  /** `clamp(value, min, max)`: `Math.min(Math.max(value, min), max)`. */
  function Clamp(value: int, min: int, max: int): int
  {
    var atLeast := if value >= min then value else min;
    if atLeast <= max then atLeast else max
  }

  /** In range the value is kept; with `min <= max` the result lies in
      `[min, max]` and is the nearest bound when outside; with `min > max`
      the result is `max`. */
  lemma ClampBounds(value: int, min: int, max: int)
    ensures min <= value <= max ==> Clamp(value, min, max) == value
    ensures min <= max ==> min <= Clamp(value, min, max) <= max
    ensures min <= max && value < min ==> Clamp(value, min, max) == min
    ensures value > max ==> Clamp(value, min, max) == max
    ensures min > max ==> Clamp(value, min, max) == max
  {
  }

  // ------------------------------------------------------------ getTechColor

  /** The badge classes of the ten technologies with a colour of their own. */
  const TechColors: map<string, string> := map[
    "Python" := "bg-blue-500/10 text-blue-500 border-blue-500/20",
    "JavaScript" := "bg-yellow-500/10 text-yellow-500 border-yellow-500/20",
    "TypeScript" := "bg-blue-400/10 text-blue-400 border-blue-400/20",
    "React" := "bg-cyan-500/10 text-cyan-500 border-cyan-500/20",
    "Next.js" := "bg-gray-500/10 text-gray-500 border-gray-500/20",
    "TensorFlow" := "bg-orange-500/10 text-orange-500 border-orange-500/20",
    "PyTorch" := "bg-red-500/10 text-red-500 border-red-500/20",
    "OpenCV" := "bg-green-500/10 text-green-500 border-green-500/20",
    "Node.js" := "bg-green-600/10 text-green-600 border-green-600/20",
    "Tailwind" := "bg-teal-500/10 text-teal-500 border-teal-500/20"]

  /** The ten technology names with a colour of their own. */
  const ListedTechs: set<string> := {"Python", "JavaScript", "TypeScript", "React", "Next.js",
    "TensorFlow", "PyTorch", "OpenCV", "Node.js", "Tailwind"}

  const DefaultTechColor: string := "bg-primary/10 text-primary border-primary/20"

  /** The intended `getTechColor(tech)`: the listed class, else the default. */
  function TechColor(tech: string): string
  {
    if tech in TechColors then TechColors[tech] else DefaultTechColor
  }

  /** Each of the ten listed names (matched exactly) gets its own class,
      all ten different from each other and from the default; every other
      string gets the default class. */
  lemma TechColorLookup(tech: string)
    ensures tech !in ListedTechs ==> TechColor(tech) == DefaultTechColor
    ensures TechColor("Python") == "bg-blue-500/10 text-blue-500 border-blue-500/20"
    ensures TechColor("JavaScript") == "bg-yellow-500/10 text-yellow-500 border-yellow-500/20"
    ensures TechColor("TypeScript") == "bg-blue-400/10 text-blue-400 border-blue-400/20"
    ensures TechColor("React") == "bg-cyan-500/10 text-cyan-500 border-cyan-500/20"
    ensures TechColor("Next.js") == "bg-gray-500/10 text-gray-500 border-gray-500/20"
    ensures TechColor("TensorFlow") == "bg-orange-500/10 text-orange-500 border-orange-500/20"
    ensures TechColor("PyTorch") == "bg-red-500/10 text-red-500 border-red-500/20"
    ensures TechColor("OpenCV") == "bg-green-500/10 text-green-500 border-green-500/20"
    ensures TechColor("Node.js") == "bg-green-600/10 text-green-600 border-green-600/20"
    ensures TechColor("Tailwind") == "bg-teal-500/10 text-teal-500 border-teal-500/20"
    ensures DefaultTechColor !in TechColors.Values
  {
  }

  lemma TechColorIsCaseSensitive()
    ensures TechColor("python") == DefaultTechColor
    ensures TechColor("Python") == "bg-blue-500/10 text-blue-500 border-blue-500/20"
  {
  }

  /** What `colors[tech] || default` evaluates to in JavaScript. */
  datatype JsValue = Str(s: string) | PrototypeMember(name: string)

  /** `getTechColor` as written: the lookup on an object literal also finds
      the members it inherits, which are truthy and are returned. */
  function TechColorAsWritten(tech: string): JsValue
  {
    if tech in TechColors then Str(TechColors[tech])
    else if tech in ObjectPrototypeMembers then PrototypeMember(tech)
    else Str(DefaultTechColor)
  }

  /** For a prototype member name the code as written returns the inherited
      member (a function, or the prototype object itself for `__proto__`)
      instead of a class string; for any other name it agrees with TechColor. */
  lemma TechColorAsWrittenDiffers(tech: string)
    ensures tech in ObjectPrototypeMembers ==> !TechColorAsWritten(tech).Str?
    ensures tech !in ObjectPrototypeMembers ==> TechColorAsWritten(tech) == Str(TechColor(tech))
    ensures TechColorAsWritten("toString") == PrototypeMember("toString")
  {
    if tech in ObjectPrototypeMembers {
      assert tech !in TechColors;
    }
  }
}
