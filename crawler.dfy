/** The table logic of crawler_radhaha/beready_crawler.py: reading the
    five-day lunch menu out of a weekly cafeteria table.

    A cell is its text (what `cell_text` returns for it), a row is the
    sequence of its `th`/`td` cells and a table the sequence of its rows.
    `LunchRows` is the reference definition of `parse_lunch_from_table`;
    the methods do the same work with the source's loops and are proved to
    agree with the functions. */
module Crawler {
  import opened Seqs
  import opened Text

  type Cell = string
  type Row = seq<Cell>
  type Table = seq<Row>

  /** The marker of the lunch row. */
  const Lunch: string := "중식"
  /** The marker of the heading cell ("category"). */
  const Division: string := "구분"
  /** The text of the "opening information" column. */
  const OpInfo: string := "운영정보"
  /** Lines with these words are notices, not dishes. */
  const BanWords: seq<string> := ["운영", "문의", "전화", "Open", "Close"]
  /** The number of weekdays a menu covers. */
  const Days: nat := 5

  // ---------------------------------------------------------------------
  // squash_slash
  // ---------------------------------------------------------------------

  /** The state of the `while i < n` loop of `squash_slash` run to the end
      from index `i` with output `out`: a "/" with an output element before
      it and a line after it joins the two as `prev/next`; anything else is
      kept as it is. */
  function SquashFrom(lines: seq<string>, i: nat, out: seq<string>): seq<string>
    decreases |lines| - i
  {
    if i >= |lines| then out
    else if lines[i] == "/" && out != [] && i + 1 < |lines| then
      SquashFrom(lines, i + 2, out[|out| - 1 := out[|out| - 1] + "/" + lines[i + 1]])
    else SquashFrom(lines, i + 1, out + [lines[i]])
  }

  /** `squash_slash(lines)` */
  function Squash(lines: seq<string>): seq<string> {
    SquashFrom(lines, 0, [])
  }

  method SquashSlash(lines: seq<string>) returns (out: seq<string>)
    ensures out == Squash(lines)
  {
    out := [];
    var i := 0;
    var n := |lines|;
    while i < n
      invariant i <= n
      invariant SquashFrom(lines, i, out) == Squash(lines)
      decreases n - i
    {
      var cur := lines[i];
      if cur == "/" && out != [] && i + 1 < n {
        out := out[|out| - 1 := out[|out| - 1] + "/" + lines[i + 1]];
        i := i + 2;
        continue;
      }
      out := out + [cur];
      i := i + 1;
    }
  }

  /** `"".join(xs)` */
  function Flatten(xs: seq<string>): string
    decreases |xs|
  {
    if xs == [] then "" else xs[0] + Flatten(xs[1..])
  }

  lemma {:induction false} FlattenAppend(a: seq<string>, b: seq<string>)
    ensures Flatten(a + b) == Flatten(a) + Flatten(b)
    decreases |a|
  {
    if a == [] {
      assert a + b == b;
    } else {
      assert (a + b)[0] == a[0];
      assert (a + b)[1..] == a[1..] + b;
      FlattenAppend(a[1..], b);
    }
  }

  /** Without a "/" strictly inside the list, the loop keeps every line. */
  lemma {:induction false} SquashFromKeeps(lines: seq<string>, i: nat, out: seq<string>)
    requires i <= |lines| && (i == 0 ==> out == [])
    requires forall j :: 1 <= j < |lines| - 1 && i <= j ==> lines[j] != "/"
    ensures SquashFrom(lines, i, out) == out + lines[i..]
    decreases |lines| - i
  {
    if i < |lines| {
      SquashFromKeeps(lines, i + 1, out + [lines[i]]);
      assert out + [lines[i]] + lines[i + 1..] == out + lines[i..];
    }
  }

  /** The output is never longer than what is left plus what is out, and
      each merge takes two elements away. */
  lemma {:induction false} SquashFromLength(lines: seq<string>, i: nat, out: seq<string>)
    requires i <= |lines|
    ensures |SquashFrom(lines, i, out)| <= |out| + |lines| - i
    ensures (|out| + |lines| - i - |SquashFrom(lines, i, out)|) % 2 == 0
    decreases |lines| - i
  {
    if i < |lines| {
      if lines[i] == "/" && out != [] && i + 1 < |lines| {
        SquashFromLength(lines, i + 2, out[|out| - 1 := out[|out| - 1] + "/" + lines[i + 1]]);
      } else {
        SquashFromLength(lines, i + 1, out + [lines[i]]);
      }
    }
  }

  /** A "/" strictly inside the list at `j` is reached with a non-empty
      output and merged, so at least two elements go. */
  lemma {:induction false} SquashFromShrinks(lines: seq<string>, i: nat, out: seq<string>, j: nat)
    requires i <= j && 1 <= j < |lines| - 1 && lines[j] == "/"
    requires i == 0 ==> out == []
    requires i > 0 ==> out != []
    requires forall k :: i <= k < j && 1 <= k ==> lines[k] != "/"
    ensures |SquashFrom(lines, i, out)| + 2 <= |out| + |lines| - i
    decreases |lines| - i
  {
    if lines[i] == "/" && out != [] && i + 1 < |lines| {
      SquashFromLength(lines, i + 2, out[|out| - 1 := out[|out| - 1] + "/" + lines[i + 1]]);
    } else {
      SquashFromShrinks(lines, i + 1, out + [lines[i]], j);
    }
  }

  /** `squash_slash` returns its input exactly when no "/" sits strictly
      inside it; otherwise it is shorter. The length always drops by an
      even number. */
  lemma SquashIdentity(lines: seq<string>)
    ensures (Squash(lines) == lines) <==> forall j :: 1 <= j < |lines| - 1 ==> lines[j] != "/"
    ensures (|Squash(lines)| == |lines|) <==> forall j :: 1 <= j < |lines| - 1 ==> lines[j] != "/"
    ensures |Squash(lines)| <= |lines| && (|lines| - |Squash(lines)|) % 2 == 0
  {
    SquashFromLength(lines, 0, []);
    if forall j :: 1 <= j < |lines| - 1 ==> lines[j] != "/" {
      SquashFromKeeps(lines, 0, []);
      assert lines[0..] == lines;
    } else {
      var j :| 1 <= j < |lines| - 1 && lines[j] == "/";
      var j0 := FirstSlash(lines, j);
      SquashFromShrinks(lines, 0, [], j0);
    }
  }

  /** The first "/" strictly inside the list, at or before `j`. */
  lemma FirstSlash(lines: seq<string>, j: nat) returns (j0: nat)
    requires 1 <= j < |lines| - 1 && lines[j] == "/"
    ensures 1 <= j0 <= j && lines[j0] == "/"
    ensures forall k :: 1 <= k < j0 ==> lines[k] != "/"
  {
    var j1 := FirstSlashBelow(lines, j);
    j0 := if j1 == 0 then j else j1;
  }

  /** The first "/" in `lines[1..j]`, or 0 when there is none. */
  lemma {:induction false} FirstSlashBelow(lines: seq<string>, j: nat) returns (j0: nat)
    requires j < |lines|
    ensures j0 == 0 ==> forall k :: 1 <= k < j ==> lines[k] != "/"
    ensures j0 != 0 ==> 1 <= j0 < j && lines[j0] == "/" && forall k :: 1 <= k < j0 ==> lines[k] != "/"
    decreases j
  {
    if j <= 1 {
      j0 := 0;
    } else {
      j0 := FirstSlashBelow(lines, j - 1);
      if j0 == 0 && lines[j - 1] == "/" {
        j0 := j - 1;
      }
    }
  }

  /** Merging only inserts "/" between neighbours: the characters of the
      output, read in order, are those of the input. */
  lemma {:induction false} SquashFromFlatten(lines: seq<string>, i: nat, out: seq<string>)
    requires i <= |lines|
    ensures Flatten(SquashFrom(lines, i, out)) == Flatten(out) + Flatten(lines[i..])
    decreases |lines| - i
  {
    if i < |lines| {
      FlattenFrom(lines, i);
      if lines[i] == "/" && out != [] && i + 1 < |lines| {
        SquashFromFlatten(lines, i + 2, out[|out| - 1 := out[|out| - 1] + "/" + lines[i + 1]]);
        FlattenMerge(out, lines[i + 1]);
        FlattenFrom(lines, i + 1);
      } else {
        SquashFromFlatten(lines, i + 1, out + [lines[i]]);
        FlattenAppend(out, [lines[i]]);
      }
    }
  }

  lemma FlattenFrom(lines: seq<string>, i: nat)
    requires i < |lines|
    ensures Flatten(lines[i..]) == lines[i] + Flatten(lines[i + 1..])
  {
    assert lines[i..][1..] == lines[i + 1..];
  }

  /** Rewriting the last output element as `last/next` appends `/next`. */
  lemma FlattenMerge(out: seq<string>, next: string)
    requires out != []
    ensures Flatten(out[|out| - 1 := out[|out| - 1] + "/" + next]) == Flatten(out) + "/" + next
  {
    var p := out[..|out| - 1];
    var last := out[|out| - 1];
    assert out == p + [last];
    assert out[|out| - 1 := last + "/" + next] == p + [last + "/" + next];
    FlattenAppend(p, [last]);
    FlattenAppend(p, [last + "/" + next]);
  }

  lemma SquashFlatten(lines: seq<string>)
    ensures Flatten(Squash(lines)) == Flatten(lines)
  {
    SquashFromFlatten(lines, 0, []);
    assert lines[0..] == lines;
  }

  /** `any(b in ln for b in ban_words)` */
  predicate HasBanWord(ln: string) {
    exists k | 0 <= k < |BanWords| :: Contains(ln, BanWords[k])
  }

  /** A line kept as a dish: not empty and free of every ban word. */
  predicate IsDish(ln: string) {
    ln != "" && !HasBanWord(ln)
  }

  /** Joining two dishes with "/" gives a dish: no ban word contains "/",
      so none can straddle the joint. */
  lemma JoinedDish(a: string, b: string)
    requires IsDish(a) && IsDish(b)
    ensures IsDish(a + "/" + b)
  {
    forall k | 0 <= k < |BanWords|
      ensures !Contains(a + "/" + b, BanWords[k])
    {
      assert '/' !in BanWords[k];
      assert a + "/" + b == a + ['/'] + b;
      ContainsAcross(a, '/', b, BanWords[k]);
    }
  }

  lemma {:induction false} SquashFromDishes(lines: seq<string>, i: nat, out: seq<string>)
    requires i <= |lines|
    requires forall k :: 0 <= k < |out| ==> IsDish(out[k])
    requires forall k :: i <= k < |lines| ==> IsDish(lines[k])
    ensures forall k :: 0 <= k < |SquashFrom(lines, i, out)| ==> IsDish(SquashFrom(lines, i, out)[k])
    decreases |lines| - i
  {
    if i < |lines| {
      if lines[i] == "/" && out != [] && i + 1 < |lines| {
        JoinedDish(out[|out| - 1], lines[i + 1]);
        SquashFromDishes(lines, i + 2, out[|out| - 1 := out[|out| - 1] + "/" + lines[i + 1]]);
      } else {
        SquashFromDishes(lines, i + 1, out + [lines[i]]);
      }
    }
  }

  /** Squashing dishes gives dishes. */
  lemma SquashDishes(lines: seq<string>)
    requires forall k :: 0 <= k < |lines| ==> IsDish(lines[k])
    ensures forall k :: 0 <= k < |Squash(lines)| ==> IsDish(Squash(lines)[k])
  {
    SquashFromDishes(lines, 0, []);
  }

  /** A "/" between two lines joins them; a leading or trailing one stays. */
  lemma SquashScenarios()
    ensures Squash(["밥", "/", "국"]) == ["밥/국"]
    ensures Squash(["/", "밥"]) == ["/", "밥"]
    ensures Squash(["밥", "/"]) == ["밥", "/"]
    ensures Squash(["밥", "/", "국", "/", "김치"]) == ["밥/국/김치"]
  {
    assert "밥" + "/" + "국" == "밥/국";
    assert "밥/국" + "/" + "김치" == "밥/국/김치";
  }

  // ---------------------------------------------------------------------
  // pick_5_header and pick_5_dates
  // ---------------------------------------------------------------------

  /** A day heading: not empty, neither the category cell nor the
      opening-information cell. */
  predicate IsDayCell(tx: Cell) {
    tx != "" && !Contains(tx, Division) && !Contains(tx, OpInfo)
  }

  /** The cells `pick_5_header` keeps: the first five day headings. */
  function HeaderCells(cells: Row): (r: Row)
    ensures |r| <= Days
    ensures forall k :: 0 <= k < |r| ==> IsDayCell(r[k])
  {
    Take(Filter(cells, (c: Cell) => IsDayCell(c)), Days)
  }

  method PickHeader(cells: Row) returns (picked: Row)
    ensures picked == HeaderCells(cells)
  {
    ghost var p := (c: Cell) => IsDayCell(c);
    picked := [];
    for i := 0 to |cells|
      invariant picked == Filter(cells[..i], p) && |picked| < Days
    {
      var tx := cells[i];
      FilterSnoc(cells, i, p);
      if tx == "" || Contains(tx, Division) || Contains(tx, OpInfo) {
        continue;
      }
      picked := picked + [tx];
      if |picked| == Days {
        TakeFilterPrefix(cells, i + 1, p, Days);
        return;
      }
    }
    assert cells[..|cells|] == cells;
  }

  /** The cells `pick_5_dates` keeps: the first five that are not the
      opening-information cell. */
  function DateCells(cells: Row): (r: Row)
    ensures |r| <= Days
    ensures forall k :: 0 <= k < |r| ==> !Contains(r[k], OpInfo)
  {
    Take(Filter(cells, (c: Cell) => !Contains(c, OpInfo)), Days)
  }

  // ---------------------------------------------------------------------
  // The five labels
  // ---------------------------------------------------------------------

  /** `cell_text(xs[i]) if i < len(xs) else ""` */
  function TextAt(xs: Row, i: nat): Cell {
    if i < |xs| then xs[i] else ""
  }

  /** Label `i` from the date and day cells. */
  function Label(dates: Row, days: Row, i: nat): string {
    var d := TextAt(dates, i);
    var w := TextAt(days, i);
    if d != "" && w != "" && !Contains(d, w) then d + " (" + w + ")"
    else if d != "" then d
    else if w != "" then w
    else "Day" + Decimal(i + 1)
  }

  function Labels(dates: Row, days: Row): (r: seq<string>)
    ensures |r| == Days
  {
    seq(Days, i requires 0 <= i < Days => Label(dates, days, i))
  }

  method BuildLabels(dates: Row, days: Row) returns (labels: seq<string>)
    ensures labels == Labels(dates, days)
  {
    labels := [];
    for i := 0 to Days
      invariant labels == seq(i, k requires 0 <= k < i => Label(dates, days, k))
    {
      var dTxt := if i < |dates| then dates[i] else "";
      var wTxt := if i < |days| then days[i] else "";
      if dTxt != "" && wTxt != "" && !Contains(dTxt, wTxt) {
        labels := labels + [dTxt + " (" + wTxt + ")"];
      } else if dTxt != "" {
        labels := labels + [dTxt];
      } else if wTxt != "" {
        labels := labels + [wTxt];
      } else {
        labels := labels + ["Day" + Decimal(i + 1)];
      }
    }
  }

  /** What a label says: it starts with the date when there is one and then
      mentions the day too when there is one; without a date it is the day;
      with neither it is the placeholder `Day{i+1}`. It is never empty. */
  lemma LabelMeaning(dates: Row, days: Row, i: nat)
    ensures var d, w, l := TextAt(dates, i), TextAt(days, i), Label(dates, days, i);
      && l != ""
      && (d != "" ==> StartsWith(l, d))
      && (d != "" && w != "" ==> Contains(l, w))
      && (d == "" && w != "" ==> l == w)
      && (d == "" && w == "" ==> l == "Day" + Decimal(i + 1) && DigitsValue(l[3..]) == i + 1)
  {
    var d, w, l := TextAt(dates, i), TextAt(days, i), Label(dates, days, i);
    DecimalValue(i + 1);
    if d == "" && w == "" {
      assert l[3..] == Decimal(i + 1);
    }
    if d != "" && w != "" && !Contains(d, w) {
      assert l == d + " (" + w + ")";
      assert l[..|d|] == d;
      assert l == d + " (" + w + ")" + "";
      ContainsMiddle(d + " (", w, ")");
    } else if d != "" {
      assert l[..|d|] == d;
    }
  }

  // ---------------------------------------------------------------------
  // The lunch row, the skip and the menu cells
  // ---------------------------------------------------------------------

  /** `" ".join(cell_text(c) for c in first_two)` */
  function LeftText(row: Row): string {
    Join(Take(row, 2), ' ')
  }

  predicate IsLunchRow(row: Row) {
    Contains(LeftText(row), Lunch)
  }

  /** The joined text of the first two cells mentions lunch exactly when
      one of those cells does: the joining space is not part of the word. */
  lemma LunchRowCells(row: Row)
    ensures IsLunchRow(row) <==>
      (|row| >= 1 && Contains(row[0], Lunch)) || (|row| >= 2 && Contains(row[1], Lunch))
  {
    var first := Take(row, 2);
    if |first| == 0 {
      NotContainsShort("", Lunch);
    } else if |first| == 1 {
      assert LeftText(row) == row[0];
    } else {
      assert first == [row[0], row[1]];
      assert first[1..] == [row[1]];
      assert Join(first[1..], ' ') == row[1];
      assert LeftText(row) == row[0] + [' '] + row[1];
      assert ' ' !in Lunch;
      ContainsAcross(row[0], ' ', row[1], Lunch);
    }
  }

  /** The first lunch row at or after `i`, or `|trs|` when there is none. */
  function FirstLunchFrom(trs: Table, i: nat): (r: nat)
    requires i <= |trs|
    ensures i <= r <= |trs|
    ensures r < |trs| ==> IsLunchRow(trs[r])
    ensures forall j :: i <= j < r ==> !IsLunchRow(trs[j])
    decreases |trs| - i
  {
    if i == |trs| then i
    else if IsLunchRow(trs[i]) then i
    else FirstLunchFrom(trs, i + 1)
  }

  /** The index of `lunch_tr`: the first row from index 2 on that is a
      lunch row, and row 2 when none is. */
  function LunchIndex(trs: Table): (r: nat)
    requires |trs| >= 3
    ensures 2 <= r < |trs|
  {
    var f := FirstLunchFrom(trs, 2);
    if f < |trs| then f else 2
  }

  /** The lunch row is the first row from index 2 on whose first two cells
      mention lunch; when no row does, it is row 2. */
  lemma LunchIndexFirst(trs: Table)
    requires |trs| >= 3
    ensures var k := LunchIndex(trs);
      || (IsLunchRow(trs[k]) && forall j :: 2 <= j < k ==> !IsLunchRow(trs[j]))
      || (k == 2 && forall j :: 2 <= j < |trs| ==> !IsLunchRow(trs[j]))
  {
  }

  method FindLunchRow(trs: Table) returns (lunchTr: Row)
    requires |trs| >= 3
    ensures lunchTr == trs[LunchIndex(trs)]
  {
    var found: Option<Row> := None;
    var i := 2;
    while i < |trs| && found.None?
      invariant 2 <= i <= |trs|
      invariant found.None? ==> forall j :: 2 <= j < i ==> !IsLunchRow(trs[j])
      invariant found.Some? ==>
        && i >= 3 && found.value == trs[i - 1] && IsLunchRow(trs[i - 1])
        && (forall j :: 2 <= j < i - 1 ==> !IsLunchRow(trs[j]))
      decreases |trs| - i
    {
      var tr := trs[i];
      var firstTwo := Take(tr, 2);
      var leftText := Join(firstTwo, ' ');
      if Contains(leftText, Lunch) {
        found := Some(tr);
      }
      i := i + 1;
    }
    if found.None? {
      lunchTr := trs[2];
    } else {
      lunchTr := found.value;
    }
  }

  /** A cell that marks the heading columns of a row. */
  predicate IsMarker(c: Cell) {
    Contains(c, Division) || Contains(c, Lunch)
  }

  /** `skip` in closed form: 2 when the second cell is a marker, else 1.
      The source computes it with a loop over the first two cells
      (one past the last marker, 1 when neither is); `SkipCount` runs that
      loop and is proved to return this value. */
  function Skip(tds: Row): (r: nat)
    ensures r == 1 || r == 2
    ensures r == 2 <==> |tds| >= 2 && IsMarker(tds[1])
  {
    if |tds| >= 2 && IsMarker(tds[1]) then 2 else 1
  }

  /** One past the last marker among the first `i` cells, 0 for none. */
  ghost function LastMarker(tds: Row, i: nat): nat
    requires i <= |tds|
  {
    if i == 0 then 0 else if IsMarker(tds[i - 1]) then i else LastMarker(tds, i - 1)
  }

  method SkipCount(tds: Row) returns (skip: nat)
    ensures skip == Skip(tds)
  {
    var firstTwo := Take(tds, 2);
    skip := 0;
    for i := 0 to |firstTwo|
      invariant skip == LastMarker(tds, i)
    {
      var c := firstTwo[i];
      if Contains(c, Division) || Contains(c, Lunch) {
        skip := i + 1;
      }
    }
    if skip == 0 {
      skip := 1;
    }
  }

  /** `candidates[:5]`: the first five cells after the skipped ones that
      are not the opening-information cell. */
  function MenuCells(tds: Row): (r: Row)
    ensures |r| <= Days
    ensures forall k :: 0 <= k < |r| ==> !Contains(r[k], OpInfo)
  {
    Take(Filter(Drop(tds, Skip(tds)), (c: Cell) => !Contains(c, OpInfo)), Days)
  }

  // ---------------------------------------------------------------------
  // Dishes and the emitted rows
  // ---------------------------------------------------------------------

  /** `[ln.strip() for ln in raw.split("\n") if ln.strip()]` */
  function StrippedLines(raw: Cell): (r: seq<string>)
    ensures forall k :: 0 <= k < |r| ==> r[k] != ""
  {
    var pieces := Split(raw, '\n');
    Filter(seq(|pieces|, k requires 0 <= k < |pieces| => Strip(pieces[k])), (ln: string) => ln != "")
  }

  /** The dishes of one menu cell: its non-empty stripped lines without the
      notices, with "/" lines squashed. */
  function Dishes(raw: Cell): seq<string> {
    Squash(Filter(StrippedLines(raw), (ln: string) => !HasBanWord(ln)))
  }

  /** Every dish is non-empty and free of every ban word. */
  lemma DishesAreDishes(raw: Cell)
    ensures forall k :: 0 <= k < |Dishes(raw)| ==> IsDish(Dishes(raw)[k])
  {
    var kept := Filter(StrippedLines(raw), (ln: string) => !HasBanWord(ln));
    assert forall k :: 0 <= k < |kept| ==> kept[k] in StrippedLines(raw);
    SquashDishes(kept);
  }

  /** `labels[i] if i < len(labels) else f"Day{i+1}"` */
  function DayOf(labels: seq<string>, i: nat): string {
    if i < |labels| then labels[i] else "Day" + Decimal(i + 1)
  }

  /** `(day, dish)` for each dish of a cell. */
  function Pairs(day: string, dishes: seq<string>): (r: seq<(string, string)>)
    ensures |r| == |dishes|
  {
    seq(|dishes|, j requires 0 <= j < |dishes| => (day, dishes[j]))
  }

  /** `rows_out` after the emission loop: the rows of each menu cell in
      turn. */
  function Rows(labels: seq<string>, menu: Row): seq<(string, string)>
    decreases |menu|
  {
    if menu == [] then []
    else Rows(labels, menu[..|menu| - 1]) + Pairs(DayOf(labels, |menu| - 1), Dishes(menu[|menu| - 1]))
  }

  method EmitRows(labels: seq<string>, menuCells: Row) returns (rowsOut: seq<(string, string)>)
    ensures rowsOut == Rows(labels, menuCells)
  {
    rowsOut := [];
    for i := 0 to |menuCells|
      invariant rowsOut == Rows(labels, menuCells[..i])
    {
      var day := if i < |labels| then labels[i] else "Day" + Decimal(i + 1);
      var raw := menuCells[i];
      var lines := StrippedLines(raw);
      lines := Filter(lines, (ln: string) => !HasBanWord(ln));
      lines := SquashSlash(lines);
      assert lines == Dishes(menuCells[i]);
      assert menuCells[..i + 1][..i] == menuCells[..i];
      rowsOut := EmitDishes(rowsOut, day, lines);
    }
    assert menuCells[..|menuCells|] == menuCells;
  }

  /** The inner loop `for dish in lines: rows_out.append((day, dish))`. */
  method EmitDishes(rows: seq<(string, string)>, day: string, lines: seq<string>) returns (rowsOut: seq<(string, string)>)
    ensures rowsOut == rows + Pairs(day, lines)
  {
    rowsOut := rows;
    for j := 0 to |lines|
      invariant rowsOut == rows + Pairs(day, lines[..j])
    {
      assert Pairs(day, lines[..j + 1]) == Pairs(day, lines[..j]) + [(day, lines[j])];
      rowsOut := rowsOut + [(day, lines[j])];
    }
    assert lines[..|lines|] == lines;
  }

  /** Each emitted row pairs the day of some menu cell with one of that
      cell's dishes; the lemma names the cell. */
  lemma {:induction false} RowFromCell(labels: seq<string>, menu: Row, k: nat) returns (i: nat)
    requires k < |Rows(labels, menu)|
    ensures i < |menu| && Rows(labels, menu)[k].0 == DayOf(labels, i)
    ensures Rows(labels, menu)[k].1 in Dishes(menu[i])
    decreases |menu|
  {
    var init := menu[..|menu| - 1];
    var last := |menu| - 1;
    var a := Rows(labels, init);
    var b := Pairs(DayOf(labels, last), Dishes(menu[last]));
    assert Rows(labels, menu) == a + b;
    if k < |a| {
      i := RowFromCell(labels, init, k);
      assert init[i] == menu[i];
    } else {
      i := last;
      assert b[k - |a|].1 == Dishes(menu[last])[k - |a|];
    }
  }

  // ---------------------------------------------------------------------
  // parse_lunch_from_table
  // ---------------------------------------------------------------------

  /** The `(day, dish)` pairs `parse_lunch_from_table` returns. */
  function LunchRows(trs: Table): seq<(string, string)> {
    if |trs| < 3 then []
    else
      var labels := Labels(DateCells(trs[1]), HeaderCells(trs[0]));
      Rows(labels, MenuCells(trs[LunchIndex(trs)]))
  }

  method ParseLunchFromTable(trs: Table) returns (rowsOut: seq<(string, string)>)
    ensures rowsOut == LunchRows(trs)
  {
    rowsOut := [];
    if |trs| < 3 {
      return;
    }
    var h1 := trs[0];
    var h2 := trs[1];
    var dayCells := PickHeader(h1);
    var dateCells := DateCells(h2);
    var labels := BuildLabels(dateCells, dayCells);
    var lunchTr := FindLunchRow(trs);
    var tds := lunchTr;
    var skip := SkipCount(tds);
    var candidates := Filter(Drop(tds, skip), (c: Cell) => !Contains(c, OpInfo));
    var menuCells := Take(candidates, Days);
    rowsOut := EmitRows(labels, menuCells);
  }

  /** A table of fewer than three rows has no menu. */
  lemma ShortTableEmpty(trs: Table)
    requires |trs| < 3
    ensures LunchRows(trs) == []
  {
  }

  /** Every emitted row is labelled with one of the five labels (so the
      `Day{i+1}` fallback of the emission loop is never taken) and carries
      a non-empty dish without any ban word. */
  lemma EmittedRowsWellFormed(trs: Table)
    requires |trs| >= 3
    ensures var labels := Labels(DateCells(trs[1]), HeaderCells(trs[0]));
      var rows := LunchRows(trs);
      forall k :: 0 <= k < |rows| ==> rows[k].0 in labels && IsDish(rows[k].1)
  {
    var labels := Labels(DateCells(trs[1]), HeaderCells(trs[0]));
    var menu := MenuCells(trs[LunchIndex(trs)]);
    var rows := LunchRows(trs);
    forall k | 0 <= k < |rows|
      ensures rows[k].0 in labels && IsDish(rows[k].1)
    {
      var i := RowFromCell(labels, menu, k);
      DishesAreDishes(menu[i]);
      assert rows[k].0 == labels[i];
    }
  }
}
