/**
 * The course-record normaliser: one table row of a class page becomes one
 * course record. The requirement symbol is classified through SYMBOL_MAP,
 * every weekday's period tokens are encoded and collected, and the codes are
 * sorted by `sort_key`; rows are gathered into a map from course name to record.
 */
module Records {
  import opened Optional
  import opened TimeCodes

  /** A table row after the HTML has been read: the cells the normaliser uses, and the period tokens of each day column. */
  datatype RawRow = RawRow(
    courseId: string,
    name: string,
    teacher: string,
    symbol: string,
    times: map<string, seq<string>>)

  datatype CourseRecord = CourseRecord(
    courseId: string,
    teacher: string,
    symbol: string,
    req: Option<string>,
    detail: Option<string>,
    timeCodes: seq<TimeCode>)

  /** A class page's courses, by course name. */
  type CourseMap = map<string, CourseRecord>

  /** The requirement level and category a symbol stands for; both None for an unknown symbol. */
  datatype Classification = Classification(req: Option<string>, detail: Option<string>)

  /** SYMBOL_MAP: symbol to (requirement level, category detail). */
  const SymbolMap: map<string, (string, string)> := map[
    "○" := ("必修", "部訂共同必修"),
    "△" := ("必修", "校訂共同必修"),
    "☆" := ("選修", "共同選修"),
    "●" := ("必修", "部訂專業必修"),
    "▲" := ("必修", "校訂專業必修"),
    "★" := ("選修", "專業選修")]

  /** `SYMBOL_MAP.get(sn, {'req': None, 'detail': None})`. */
  function Classify(symbol: string): (r: Classification)
    ensures r.req.Some? <==> symbol in SymbolMap
    ensures r.detail.Some? <==> symbol in SymbolMap
    ensures r.req == Some("必修") <==> symbol in {"○", "△", "●", "▲"}
    ensures r.req == Some("選修") <==> symbol in {"☆", "★"}
  {
    if symbol in SymbolMap then
      Classification(Some(SymbolMap[symbol].0), Some(SymbolMap[symbol].1))
    else
      Classification(None, None)
  }

  /** The characters Python's `str.isspace` accepts. */
  predicate IsSpace(ch: char) {
    ch == ' ' || '\t' <= ch <= '\r' || '\U{1c}' <= ch <= '\U{1f}' || ch == '\U{85}' || ch == '\U{a0}'
    || ch == '\U{1680}' || '\U{2000}' <= ch <= '\U{200a}' || ch == '\U{2028}' || ch == '\U{2029}'
    || ch == '\U{202f}' || ch == '\U{205f}' || ch == '\U{3000}'
  }

  /** The first index from `i` on that does not hold whitespace, or `|s|`. */
  function LeadEnd(s: string, i: nat): (n: nat)
    requires i <= |s|
    ensures i <= n <= |s|
    ensures forall k :: i <= k < n ==> IsSpace(s[k])
    ensures n < |s| ==> !IsSpace(s[n])
    decreases |s| - i
  {
    if i < |s| && IsSpace(s[i]) then LeadEnd(s, i + 1) else i
  }

  /** The start of the run of whitespace that ends at `j`, going no lower than `lo`. */
  function TrailStart(s: string, lo: nat, j: nat): (n: nat)
    requires lo <= j <= |s|
    ensures lo <= n <= j
    ensures forall k :: n <= k < j ==> IsSpace(s[k])
    ensures n > lo ==> !IsSpace(s[n - 1])
    decreases j
  {
    if j > lo && IsSpace(s[j - 1]) then TrailStart(s, lo, j - 1) else j
  }

  /** `r` is `s` with `lead` characters of whitespace removed in front and only whitespace removed behind. */
  predicate StrippedAt(s: string, r: string, lead: int) {
    0 <= lead && lead + |r| <= |s| && r == s[lead..lead + |r|]
    && (forall k :: 0 <= k < lead ==> IsSpace(s[k]))
    && (forall k :: lead + |r| <= k < |s| ==> IsSpace(s[k]))
  }

  /** `str.strip()`: the text between the leading and the trailing whitespace. */
  function Strip(s: string): (r: string)
    ensures exists lead :: StrippedAt(s, r, lead)
    ensures r != [] ==> !IsSpace(r[0]) && !IsSpace(r[|r| - 1])
  {
    var lo := LeadEnd(s, 0);
    var hi := TrailStart(s, lo, |s|);
    assert StrippedAt(s, s[lo..hi], lo);
    s[lo..hi]
  }

  /** The period tokens of one day column; a missing or empty cell gives none. */
  function DayTokens(row: RawRow, dayLabel: string): seq<string> {
    if dayLabel in row.times then row.times[dayLabel] else []
  }

  /** The codes of one day's tokens, in token order, skipping those that do not encode. */
  function DayCodes(dayLabel: string, tokens: seq<string>): seq<TimeCode> {
    if tokens == [] then []
    else
      var rest := DayCodes(dayLabel, tokens[..|tokens| - 1]);
      match Encode(dayLabel, tokens[|tokens| - 1])
      case Some(c) => rest + [c]
      case None => rest
  }

  /** The codes collected over the day labels `labels`, in label order. */
  function CodesOver(row: RawRow, labels: seq<string>): seq<TimeCode> {
    if labels == [] then []
    else
      var dayLabel := labels[|labels| - 1];
      CodesOver(row, labels[..|labels| - 1]) + DayCodes(dayLabel, DayTokens(row, dayLabel))
  }

  /** The unsorted `codes` list of a row: every DAY_MAP column in dictionary order. */
  function RowCodes(row: RawRow): seq<TimeCode> {
    CodesOver(row, DayLabels)
  }

  lemma {:induction false} DayCodesMembers(dayLabel: string, tokens: seq<string>, c: TimeCode)
    ensures c in DayCodes(dayLabel, tokens) <==> exists t :: t in tokens && Encode(dayLabel, t) == Some(c)
  {
    if tokens != [] {
      var init, last := tokens[..|tokens| - 1], tokens[|tokens| - 1];
      DayCodesMembers(dayLabel, init, c);
      assert tokens == init + [last];
      if c in DayCodes(dayLabel, tokens) && c !in DayCodes(dayLabel, init) {
        assert Encode(dayLabel, last) == Some(c);
      }
      if exists t :: t in tokens && Encode(dayLabel, t) == Some(c) {
        var t :| t in tokens && Encode(dayLabel, t) == Some(c);
        if t != last {
          assert t in init;
        }
      }
    }
  }

  lemma {:induction false} CodesOverMembers(row: RawRow, labels: seq<string>, c: TimeCode)
    ensures c in CodesOver(row, labels) <==>
              exists dayLabel, t :: dayLabel in labels && t in DayTokens(row, dayLabel) && Encode(dayLabel, t) == Some(c)
  {
    if labels != [] {
      var init, last := labels[..|labels| - 1], labels[|labels| - 1];
      CodesOverMembers(row, init, c);
      DayCodesMembers(last, DayTokens(row, last), c);
      assert labels == init + [last];
      if exists dayLabel, t :: dayLabel in labels && t in DayTokens(row, dayLabel) && Encode(dayLabel, t) == Some(c) {
        var dayLabel, t :| dayLabel in labels && t in DayTokens(row, dayLabel) && Encode(dayLabel, t) == Some(c);
        if dayLabel != last {
          assert dayLabel in init;
        }
      }
    }
  }

  /**
   * The codes of a row are exactly the encodings of the period tokens found
   * under the weekday columns; weekend columns, unknown tokens and columns
   * that are not day labels contribute nothing.
   */
  lemma RowCodesMembers(row: RawRow, c: TimeCode)
    ensures c in RowCodes(row) <==>
              exists dayLabel, t :: dayLabel in row.times && t in row.times[dayLabel] && Encode(dayLabel, t) == Some(c)
  {
    CodesOverMembers(row, DayLabels, c);
    if exists dayLabel, t :: dayLabel in row.times && t in row.times[dayLabel] && Encode(dayLabel, t) == Some(c) {
      var dayLabel, t :| dayLabel in row.times && t in row.times[dayLabel] && Encode(dayLabel, t) == Some(c);
      assert dayLabel in DayLabels;
      assert t in DayTokens(row, dayLabel);
    }
  }

  /** A token repeated within one day column gives its code twice: duplicates are kept. */
  lemma {:induction false} DayCodesAppend(dayLabel: string, a: seq<string>, b: seq<string>)
    ensures DayCodes(dayLabel, a + b) == DayCodes(dayLabel, a) + DayCodes(dayLabel, b)
  {
    if b != [] {
      var init, last := b[..|b| - 1], b[|b| - 1];
      assert (a + b)[..|a + b| - 1] == a + init;
      DayCodesAppend(dayLabel, a, init);
    } else {
      assert a + b == a;
    }
  }

  /** Non-decreasing by `sort_key`. */
  predicate SortedByKey(s: seq<TimeCode>) {
    forall i, j :: 0 <= i < j < |s| ==> Rank(s[i]) <= Rank(s[j])
  }

  function InsertCode(c: TimeCode, s: seq<TimeCode>): (r: seq<TimeCode>)
    requires SortedByKey(s)
    ensures SortedByKey(r)
    ensures multiset(r) == multiset(s) + multiset{c}
    ensures |r| == |s| + 1
    ensures r[0] == c || (s != [] && r[0] == s[0])
  {
    if s == [] || Rank(c) <= Rank(s[0]) then
      ConsSorted(c, s);
      [c] + s
    else
      SortedTail(s);
      var tail := InsertCode(c, s[1..]);
      InsertBehindHead(c, s, tail);
      [s[0]] + tail
  }

  lemma SortedTail(s: seq<TimeCode>)
    requires SortedByKey(s) && s != []
    ensures SortedByKey(s[1..])
  {
  }

  /** Inserting behind the head: the head stays first, and the result is sorted with one more `c`. */
  lemma InsertBehindHead(c: TimeCode, s: seq<TimeCode>, tail: seq<TimeCode>)
    requires SortedByKey(s) && s != [] && Rank(s[0]) < Rank(c)
    requires SortedByKey(tail) && multiset(tail) == multiset(s[1..]) + multiset{c}
    requires tail != [] && (tail[0] == c || (s[1..] != [] && tail[0] == s[1..][0]))
    ensures SortedByKey([s[0]] + tail)
    ensures multiset([s[0]] + tail) == multiset(s) + multiset{c}
  {
    if tail[0] != c {
      assert Rank(s[0]) <= Rank(s[1]);
    }
    ConsSorted(s[0], tail);
    assert s == [s[0]] + s[1..];
  }

  /** A code no later than the head of a sorted list extends it to a sorted list. */
  lemma ConsSorted(x: TimeCode, t: seq<TimeCode>)
    requires SortedByKey(t)
    requires t != [] ==> Rank(x) <= Rank(t[0])
    ensures SortedByKey([x] + t)
  {
    var r := [x] + t;
    forall i, j | 0 <= i < j < |r|
      ensures Rank(r[i]) <= Rank(r[j])
    {
      if i == 0 {
        assert r[j] == t[j - 1];
        assert Rank(t[0]) <= Rank(t[j - 1]);
      } else {
        assert r[i] == t[i - 1] && r[j] == t[j - 1];
      }
    }
  }

  /** `sorted(codes, key=sort_key)`: the sorted permutation of the codes. */
  function SortCodes(s: seq<TimeCode>): (r: seq<TimeCode>)
    ensures SortedByKey(r)
    ensures multiset(r) == multiset(s)
  {
    if s == [] then []
    else
      assert s == s[..|s| - 1] + [s[|s| - 1]];
      InsertCode(s[|s| - 1], SortCodes(s[..|s| - 1]))
  }

  /** Two sorted lists with the same elements start with the same code. */
  lemma SameHead(a: seq<TimeCode>, b: seq<TimeCode>)
    requires SortedByKey(a) && SortedByKey(b)
    requires multiset(a) == multiset(b) && a != []
    ensures b != [] && a[0] == b[0]
  {
    assert |b| == |multiset(b)| > 0;
    assert a[0] in multiset(b) && b[0] in multiset(a);
    var i :| 0 <= i < |b| && b[i] == a[0];
    var j :| 0 <= j < |a| && a[j] == b[0];
    assert Rank(a[0]) <= Rank(a[j]);
    assert Rank(b[0]) <= Rank(b[i]);
    RankOrder(a[0], b[0]);
  }

  /** Removing the same first element from two lists with the same elements leaves lists with the same elements. */
  lemma SameTail(a: seq<TimeCode>, b: seq<TimeCode>)
    requires a != [] && b != [] && a[0] == b[0]
    requires multiset(a) == multiset(b)
    ensures multiset(a[1..]) == multiset(b[1..])
  {
    assert a == [a[0]] + a[1..];
    assert b == [b[0]] + b[1..];
    assert multiset(a) == multiset{a[0]} + multiset(a[1..]);
    assert multiset(b) == multiset{b[0]} + multiset(b[1..]);
    forall y
      ensures multiset(a[1..])[y] == multiset(b[1..])[y]
    {
      assert multiset(a)[y] == multiset{a[0]}[y] + multiset(a[1..])[y];
      assert multiset(b)[y] == multiset{b[0]}[y] + multiset(b[1..])[y];
    }
  }

  /**
   * There is only one sorted arrangement of a multiset of codes, because
   * `sort_key` separates distinct codes; so any sort by `sort_key`, stable or
   * not, gives the same list as `SortCodes`.
   */
  lemma {:induction false} SortedUnique(a: seq<TimeCode>, b: seq<TimeCode>)
    requires SortedByKey(a) && SortedByKey(b)
    requires multiset(a) == multiset(b)
    ensures a == b
  {
    if a == [] {
      assert |b| == |multiset(b)| == 0;
    } else {
      SameHead(a, b);
      SameTail(a, b);
      assert SortedByKey(a[1..]) && SortedByKey(b[1..]);
      SortedUnique(a[1..], b[1..]);
      assert a == [a[0]] + a[1..];
      assert b == [b[0]] + b[1..];
    }
  }

  /** The record `fetch_course_map` stores for a row. */
  function Normalised(row: RawRow): CourseRecord {
    var sn := Strip(row.symbol);
    var info := Classify(sn);
    CourseRecord(row.courseId, row.teacher, sn, info.req, info.detail, SortCodes(RowCodes(row)))
  }

  /**
   * A normalised record keeps the row's identifiers, carries the stripped
   * symbol and its classification, and lists the row's codes sorted by
   * `sort_key`, each as often as it was collected.
   */
  lemma NormalisedSpec(row: RawRow, c: TimeCode)
    ensures Normalised(row).courseId == row.courseId && Normalised(row).teacher == row.teacher
    ensures Normalised(row).req.Some? <==> Strip(row.symbol) in SymbolMap
    ensures SortedByKey(Normalised(row).timeCodes)
    ensures multiset(Normalised(row).timeCodes)[c] == multiset(RowCodes(row))[c]
    ensures c in Normalised(row).timeCodes <==>
              exists dayLabel, t :: dayLabel in row.times && t in row.times[dayLabel] && Encode(dayLabel, t) == Some(c)
  {
    RowCodesMembers(row, c);
    assert c in Normalised(row).timeCodes <==> c in multiset(RowCodes(row));
  }

  /** The day loop of `fetch_course_map`: each DAY_MAP column in order. */
  method CollectCodes(row: RawRow) returns (codes: seq<TimeCode>)
    ensures codes == RowCodes(row)
  {
    codes := [];
    var i := 0;
    while i < |DayLabels|
      invariant 0 <= i <= |DayLabels|
      invariant codes == CodesOver(row, DayLabels[..i])
    {
      var day := DayLabels[i];
      codes := CollectDay(codes, day, DayMap[day], DayTokens(row, day));
      assert DayLabels[..i + 1][..i] == DayLabels[..i];
      i := i + 1;
    }
    assert DayLabels[..i] == DayLabels;
  }

  /** The token loop for one day column: each token in order, appending the code it encodes. */
  method CollectDay(codes: seq<TimeCode>, day: string, dnum: Option<char>, raw: seq<string>) returns (r: seq<TimeCode>)
    requires day in DayMap && dnum == DayMap[day]
    ensures r == codes + DayCodes(day, raw)
  {
    r := codes;
    var j := 0;
    while j < |raw|
      invariant 0 <= j <= |raw|
      invariant r == codes + DayCodes(day, raw[..j])
    {
      var p := raw[j];
      var t := if p in PeriodMap then Some(PeriodMap[p]) else None;
      if dnum.Some? && t.Some? {
        EncodeParts(day, p);
        // the code whose text is f"{dnum}{t}"
        r := r + [TimeCode(DigitValue(dnum.value), SlotIndexOf(t.value))];
      }
      assert raw[..j + 1][..j] == raw[..j];
      j := j + 1;
    }
    assert raw[..j] == raw;
  }

  /** The loop body of `fetch_course_map`: the record stored for one row. */
  method NormaliseRow(row: RawRow) returns (rec: CourseRecord)
    ensures rec == Normalised(row)
  {
    var sn := Strip(row.symbol);
    var info := Classify(sn);
    var codes := CollectCodes(row);
    codes := SortCodes(codes);
    rec := CourseRecord(row.courseId, row.teacher, sn, info.req, info.detail, codes);
  }

  /** The course names of the rows, in row order. */
  function Names(rows: seq<RawRow>): (r: seq<string>)
    ensures |r| == |rows| && forall i :: 0 <= i < |rows| ==> r[i] == rows[i].name
  {
    seq(|rows|, i requires 0 <= i < |rows| => rows[i].name)
  }

  /** The record each row normalises to, in row order. */
  ghost function NormalisedRows(rows: seq<RawRow>): (r: seq<CourseRecord>)
    ensures |r| == |rows| && forall i :: 0 <= i < |rows| ==> r[i] == Normalised(rows[i])
  {
    seq(|rows|, i requires 0 <= i < |rows| => Normalised(rows[i]))
  }

  /** No later name before `upTo` equals name `i`. */
  predicate LastWithName(names: seq<string>, i: int, upTo: int)
    requires 0 <= i < |names|
  {
    forall j :: i < j < upTo && j < |names| ==> names[j] != names[i]
  }

  /** `m` is what storing `vals[i]` under `names[i]` for each of the first `n` indices builds. */
  predicate KeyedByLast<V(==)>(names: seq<string>, vals: seq<V>, n: int, m: map<string, V>)
    requires |names| == |vals| && 0 <= n <= |names|
  {
    && (forall i :: 0 <= i < n ==> names[i] in m)
    && (forall name :: name in m ==> exists i :: 0 <= i < n && names[i] == name)
    && (forall i :: 0 <= i < n && LastWithName(names, i, n) ==> m[names[i]] == vals[i])
  }

  /** Storing entry `n` under its name extends what the loop has built to `n + 1` entries. */
  lemma KeyedByLastStep<V>(names: seq<string>, vals: seq<V>, n: int, m: map<string, V>)
    requires |names| == |vals| && 0 <= n < |names| && KeyedByLast(names, vals, n, m)
    ensures KeyedByLast(names, vals, n + 1, m[names[n] := vals[n]])
  {
    var next := m[names[n] := vals[n]];
    forall name | name in next
      ensures exists i :: 0 <= i < n + 1 && names[i] == name
    {
      if name != names[n] {
        assert name in m;
      }
    }
    forall i | 0 <= i < n + 1 && LastWithName(names, i, n + 1)
      ensures next[names[i]] == vals[i]
    {
      if i < n {
        assert names[n] != names[i];
        assert LastWithName(names, i, n);
      }
    }
  }

  /**
   * The row loop of `fetch_course_map`: one record per course name; when
   * several rows share a name, the last of them is the one kept.
   */
  method BuildCourseMap(rows: seq<RawRow>) returns (cmap: CourseMap)
    ensures forall i :: 0 <= i < |rows| ==> rows[i].name in cmap
    ensures forall name :: name in cmap ==> exists i :: 0 <= i < |rows| && rows[i].name == name
    ensures forall i :: 0 <= i < |rows| && LastWithName(Names(rows), i, |rows|) ==> cmap[rows[i].name] == Normalised(rows[i])
  {
    cmap := map[];
    var n := 0;
    while n < |rows|
      invariant 0 <= n <= |rows|
      invariant KeyedByLast(Names(rows), NormalisedRows(rows), n, cmap)
    {
      cmap := StoreRow(rows, n, cmap);
      n := n + 1;
    }
    KeyedByLastRows(rows, NormalisedRows(rows), cmap);
  }

  /** One pass of the row loop: normalise row `n` and store it under its course name. */
  method StoreRow(rows: seq<RawRow>, n: nat, cmap: CourseMap) returns (next: CourseMap)
    requires n < |rows| && KeyedByLast(Names(rows), NormalisedRows(rows), n, cmap)
    ensures next == cmap[rows[n].name := Normalised(rows[n])]
    ensures KeyedByLast(Names(rows), NormalisedRows(rows), n + 1, next)
  {
    var rec := NormaliseRow(rows[n]);
    KeyedByLastStep(Names(rows), NormalisedRows(rows), n, cmap);
    next := cmap[rows[n].name := rec];
  }

  /** What the row loop has built once every row is stored, in terms of the rows. */
  lemma KeyedByLastRows<V>(rows: seq<RawRow>, vals: seq<V>, m: map<string, V>)
    requires |vals| == |rows| && KeyedByLast(Names(rows), vals, |rows|, m)
    ensures forall i :: 0 <= i < |rows| ==> rows[i].name in m
    ensures forall name :: name in m ==> exists i :: 0 <= i < |rows| && rows[i].name == name
    ensures forall i :: 0 <= i < |rows| && LastWithName(Names(rows), i, |rows|) ==> m[rows[i].name] == vals[i]
  {
    var names := Names(rows);
    forall name | name in m
      ensures exists i :: 0 <= i < |rows| && rows[i].name == name
    {
      var i :| 0 <= i < |rows| && names[i] == name;
      assert rows[i].name == name;
    }
  }

}
