/** The controller settings as the main window saves them to, and loads them
    from, a text file: one `$key=value (comment)` line per setting. */
module SettingsFile {
  import opened Outcomes
  import opened Text
  import opened Dicts

  // ------------------------------------------------------------ writing

  /** One row of the settings table: the texts of its key, value and comment
      cells, `None` where the cell holds no item. */
  datatype SettingsRow = SettingsRow(key: Option<string>, val: Option<string>, cmt: Option<string>)

  /** The key as it is written: the cell text without its dollar signs,
      stripped. */
  function KeyText(key: string): string {
    Strip(RemoveAll(key, '$'))
  }

  /** `$key=val (cmt)`. */
  function LineBody(key: string, val: string, cmt: string): string {
    "$" + key + "=" + val + " (" + cmt + ")"
  }

  /** The line written for the cell texts `key`, `val` and `cmt`. */
  function LineText(key: string, val: string, cmt: string): string {
    "$" + KeyText(key) + "=" + Strip(val) + " (" + Strip(cmt) + ")\n"
  }

  lemma LineTextBody(key: string, val: string, cmt: string)
    ensures LineText(key, val, cmt) == LineBody(KeyText(key), Strip(val), Strip(cmt)) + "\n"
  {
    CloseLine("$" + KeyText(key) + "=" + Strip(val) + " (" + Strip(cmt));
  }

  lemma CloseLine(x: string)
    ensures (x + ")") + "\n" == x + ")\n"
  {
    assert |(x + ")") + "\n"| == |x + ")\n"|;
    forall p | 0 <= p < |x + ")\n"|
      ensures ((x + ")") + "\n")[p] == (x + ")\n")[p]
    {
    }
  }

  predicate Filled(row: SettingsRow) {
    row.key.Some? && row.val.Some? && row.cmt.Some?
  }

  /** The line of one row; reading the text of a missing item raises. */
  function SettingLine(row: SettingsRow): (r: Outcome<string>)
    ensures r.Ok? <==> Filled(row)
    ensures !r.Ok? ==> r == Raised(AttributeError)
  {
    if row.key.None? || row.val.None? || row.cmt.None? then Raised(AttributeError)
    else Ok(LineText(row.key.value, row.val.value, row.cmt.value))
  }

  /** The text of the whole table, rows in table order; the first row with a
      missing item decides the failure. */
  function SettingsText(rows: seq<SettingsRow>): Outcome<string>
  {
    if rows == [] then Ok("")
    else match SettingLine(rows[0])
      case Ok(l) => Prepend(l, SettingsText(rows[1..]))
      case Rejected => Rejected
      case Raised(e) => Raised(e)
  }

  /** `settings_table_to_str`. */
  method SettingsTableToStr(rows: seq<SettingsRow>) returns (r: Outcome<string>)
    ensures r == SettingsText(rows)
  {
    var settings := "";
    assert rows[0..] == rows;
    PrependNothing(SettingsText(rows));
    for i := 0 to |rows|
      invariant Prepend(settings, SettingsText(rows[i..])) == SettingsText(rows)
    {
      assert rows[i..][0] == rows[i] && rows[i..][1..] == rows[i + 1..];
      var row := rows[i];
      if row.key.None? || row.val.None? || row.cmt.None? {
        assert SettingsText(rows[i..]) == Raised(AttributeError);
        return Raised(AttributeError);
      }
      var key := "$" + Strip(RemoveAll(row.key.value, '$'));
      var val := Strip(row.val.value);
      var cmt := Strip(row.cmt.value);
      var line := key + "=" + val + " (" + cmt + ")\n";
      PrependPrepend(settings, line, SettingsText(rows[i + 1..]));
      settings := settings + line;
    }
    assert rows[|rows|..] == [];
    assert settings + "" == settings;
    r := Ok(settings);
  }

  /** The first row and the rest: the cells are all filled exactly when the
      first row's are and the rest's are. */
  lemma FilledCons(rows: seq<SettingsRow>)
    requires rows != []
    ensures (forall i :: 0 <= i < |rows| ==> Filled(rows[i])) <==>
      Filled(rows[0]) && forall i :: 0 <= i < |rows[1..]| ==> Filled(rows[1..][i])
  {
    assert forall i :: 0 <= i < |rows[1..]| ==> rows[1..][i] == rows[i + 1];
    if Filled(rows[0]) && forall i :: 0 <= i < |rows[1..]| ==> Filled(rows[1..][i]) {
      forall i | 0 <= i < |rows|
        ensures Filled(rows[i])
      {
        if i > 0 {
          assert rows[i] == rows[1..][i - 1];
        }
      }
    }
  }

  /** The text written for a filled table starts with its first row's line. */
  lemma JoinWrittenCons(rows: seq<SettingsRow>)
    requires rows != [] && forall i :: 0 <= i < |rows| ==> Filled(rows[i])
    ensures Filled(rows[0]) && forall i :: 0 <= i < |rows[1..]| ==> Filled(rows[1..][i])
    ensures Join(Written(rows)) ==
      LineText(rows[0].key.value, rows[0].val.value, rows[0].cmt.value) + Join(Written(rows[1..]))
  {
    FilledCons(rows);
    var w := Written(rows);
    assert w[1..] == Written(rows[1..]);
  }

  /** The table is written out exactly when every cell holds an item, and
      then as one line per row. */
  lemma {:induction false} SettingsTextOk(rows: seq<SettingsRow>)
    ensures SettingsText(rows).Ok? <==> forall i :: 0 <= i < |rows| ==> Filled(rows[i])
    ensures !SettingsText(rows).Ok? ==> SettingsText(rows) == Raised(AttributeError)
    ensures SettingsText(rows).Ok? ==> SettingsText(rows).value == Join(Written(rows))
  {
    if rows != [] {
      SettingsTextOk(rows[1..]);
      FilledCons(rows);
      if Filled(rows[0]) {
        var l := LineText(rows[0].key.value, rows[0].val.value, rows[0].cmt.value);
        assert SettingsText(rows) == Prepend(l, SettingsText(rows[1..]));
        if SettingsText(rows[1..]).Ok? {
          JoinWrittenCons(rows);
        }
      }
    }
  }

  // ------------------------------------------------------------ reading

  /** The lines `for line in f` yields from the text of a file: each keeps
      the newline that ends it, and the last may have none. */
  function FileLines(text: string): seq<string>
    decreases |text|
  {
    if text == [] then []
    else
      var h := FirstLine(text);
      if |h| < |text| then [text[..|h| + 1]] + FileLines(text[|h| + 1..])
      else [text]
  }

  lemma FileLinesCons(h: string, rest: string)
    requires '\n' !in h
    ensures FileLines(h + "\n" + rest) == [h + "\n"] + FileLines(rest)
  {
    var t := h + "\n" + rest;
    assert t == h + ("\n" + rest);
    FirstLineAppend(h, "\n" + rest);
    assert t[..|h| + 1] == h + "\n";
    assert t[|h| + 1..] == rest;
  }

  /** The lines written for a table whose cells all hold items. */
  function Written(rows: seq<SettingsRow>): (r: seq<string>)
    requires forall i :: 0 <= i < |rows| ==> Filled(rows[i])
    ensures |r| == |rows|
  {
    if rows == [] then []
    else
      assert Filled(rows[0]);
      [LineText(rows[0].key.value, rows[0].val.value, rows[0].cmt.value)] + Written(rows[1..])
  }

  /** The lines one after the other. */
  function Join(lines: seq<string>): string {
    if lines == [] then "" else lines[0] + Join(lines[1..])
  }

  lemma LineTextShape(key: string, val: string, cmt: string)
    ensures var l := LineText(key, val, cmt);
      |l| >= 1 && l[|l| - 1] == '\n'
  {
  }

  // ------------------------------------- the pattern \$(.*)=(.*) \((.*)\)

  /** The last `)` before index `hi`, -1 when there is none. */
  function LastClose(l: string, hi: int): (r: int)
    requires 0 <= hi <= |l|
    ensures -1 <= r < hi
    ensures r >= 0 ==> l[r] == ')'
    ensures forall m :: r < m < hi && 0 <= m ==> l[m] != ')'
    decreases hi
  {
    if hi <= 0 then -1
    else if l[hi - 1] == ')' then hi - 1
    else LastClose(l, hi - 1)
  }

  /** A ` (` at index `j` with a `)` somewhere after it. */
  predicate OpenAt(l: string, j: int) {
    0 <= j && j + 1 < |l| && l[j] == ' ' && l[j + 1] == '(' && LastClose(l, |l|) >= j + 2
  }

  /** The last index before `hi` at which `OpenAt` holds, -1 when there is
      none. */
  function LastOpen(l: string, hi: int): (r: int)
    requires 0 <= hi <= |l|
    ensures -1 <= r < hi
    ensures r >= 0 ==> OpenAt(l, r)
    ensures forall m :: r < m < hi ==> !OpenAt(l, m)
    decreases hi
  {
    if hi <= 0 then -1
    else if OpenAt(l, hi - 1) then hi - 1
    else LastOpen(l, hi - 1)
  }

  /** An `=` at index `i`, past the leading `$`, with an `OpenAt` after it. */
  predicate EqualsAt(l: string, i: int) {
    1 <= i < |l| && l[i] == '=' && LastOpen(l, |l|) >= i + 1
  }

  /** The last index before `hi` at which `EqualsAt` holds, 0 when there is
      none. */
  function LastEquals(l: string, hi: int): (r: int)
    requires 0 <= hi <= |l|
    ensures 0 <= r && (r < hi || r == 0)
    ensures r >= 1 ==> EqualsAt(l, r)
    ensures forall m :: r < m < hi ==> !EqualsAt(l, m)
    decreases hi
  {
    if hi <= 1 then 0
    else if EqualsAt(l, hi - 1) then hi - 1
    else LastEquals(l, hi - 1)
  }

  /** The pattern matches at the start of `l` with its `=` at `i`, its ` (` at
      `j` and its `)` at `k`. */
  predicate Splits(l: string, i: int, j: int, k: int) {
    && |l| >= 1 && l[0] == '$'
    && 1 <= i < j && j + 2 <= k < |l|
    && l[i] == '=' && l[j] == ' ' && l[j + 1] == '(' && l[k] == ')'
  }

  /** `(i, j, k)` comes no later than `(i', j', k')` in the order in which
      the greedy groups give up characters. */
  predicate NoLater(i: int, j: int, k: int, i': int, j': int, k': int) {
    i < i' || (i == i' && (j < j' || (j == j' && k <= k')))
  }

  /** Where `re.match` places the three groups in a line segment without a
      newline: each `.*` takes as much as the rest of the pattern leaves it. */
  function Greedy(l: string): (r: Option<(int, int, int)>)
    ensures r.Some? ==> Splits(l, r.value.0, r.value.1, r.value.2)
  {
    if l == [] || l[0] != '$' then None
    else
      var i := LastEquals(l, |l|);
      if i < 1 then None else Some((i, LastOpen(l, |l|), LastClose(l, |l|)))
  }

  /** The match is the first one backtracking reaches: the pattern matches
      exactly when some split exists, and no split lies beyond the one
      chosen. */
  lemma GreedyIsFirst(l: string, i: int, j: int, k: int)
    requires Splits(l, i, j, k)
    ensures Greedy(l).Some?
    ensures var g := Greedy(l).value; NoLater(i, j, k, g.0, g.1, g.2)
  {
    assert LastClose(l, |l|) >= k;
    assert OpenAt(l, j);
    assert LastOpen(l, |l|) >= j;
    assert EqualsAt(l, i);
  }

  /** The three groups of a match. */
  datatype Groups = Groups(key: string, val: string, cmt: string)

  function MatchLine(l: string): (r: Option<Groups>)
    ensures r.Some? <==> Greedy(l).Some?
    ensures r.Some? ==> var g := Greedy(l).value;
      r.value == Groups(l[1..g.0], l[g.0 + 1..g.1], l[g.1 + 2..g.2])
  {
    match Greedy(l)
    case None => None
    case Some((i, j, k)) => Some(Groups(l[1..i], l[i + 1..j], l[j + 2..k]))
  }

  /** `re.match(...)` on a line read from the file: `.` does not match the
      newline, so only the text before it takes part. */
  function LineGroups(line: string): Option<Groups> {
    MatchLine(FirstLine(line))
  }

  // --------------------------------------------------------- int(text)

  /** Python's `int(s)`: optional surrounding whitespace, an optional sign and
      decimal digits; `None` where `int` raises `ValueError`. */
  function PyInt(s: string): (r: Option<int>)
    ensures r.Some? ==> Strip(s) != []
  {
    var t := Strip(s);
    if t != [] && (t[0] == '+' || t[0] == '-') then
      var d := t[1..];
      if d != [] && AllDigits(d) then
        var v: int := DigitsValue(d);
        Some(if t[0] == '-' then -v else v)
      else None
    else if t != [] && AllDigits(t) then Some(DigitsValue(t))
    else None
  }

  lemma PyIntDigits(d: string)
    requires d != [] && AllDigits(d)
    ensures PyInt(d) == Some(DigitsValue(d))
  {
    assert !IsSpace(d[0]) && !IsSpace(d[|d| - 1]);
    assert StripSpaceRight(d) == d;
    assert StripSpaceLeft(d) == d;
  }

  // ------------------------------------------------------------ loading

  /** What the loaded dictionary keeps of a line: the value and the comment. */
  datatype Setting = Setting(val: string, cmt: string)

  /** The key a line assigns, `None` for a line the pattern does not match or
      whose key `int` refuses. */
  function LineKey(line: string): Option<int> {
    match LineGroups(line)
    case None => None
    case Some(g) => PyInt(g.key)
  }

  /** A matching line whose key `int` refuses. */
  predicate BadKey(line: string) {
    LineGroups(line).Some? && PyInt(LineGroups(line).value.key).None?
  }

  /** What one line of the file does to the dictionary: a line the pattern
      does not match is skipped, a matching one assigns its value and comment
      to its key, and `int` raises on a key that is not a number. */
  function LineEntry(line: string): Outcome<Option<(int, Setting)>>
  {
    match LineGroups(line)
    case None => Ok(None)
    case Some(g) =>
      match PyInt(g.key)
      case None => Raised(ValueError)
      case Some(key) => Ok(Some((key, Setting(g.val, g.cmt))))
  }

  /** The dictionary `settings_load_from_file` builds from the lines of the
      file. */
  function Load(lines: seq<string>): Outcome<map<int, Setting>> {
    Fill(lines, LineEntry)
  }

  /** The loop of `settings_load_from_file` over the lines of the file; the
      dictionary then goes into the table. */
  method LoadSettings(lines: seq<string>) returns (r: Outcome<map<int, Setting>>)
    ensures r == Load(lines)
  {
    var settings := map[];
    for i := 0 to |lines|
      invariant Fill(lines[..i], LineEntry) == Ok(settings)
    {
      FillStep(lines, i, LineEntry);
      var m := LineGroups(lines[i]);
      if m.Some? {
        var key := PyInt(m.value.key);
        if key.None? {
          FillStaysFailed(lines, i + 1, LineEntry);
          return Raised(ValueError);
        }
        settings := settings[key.value := Setting(m.value.val, m.value.cmt)];
      }
    }
    assert lines[..|lines|] == lines;
    r := Ok(settings);
  }

  lemma LineEntryFails(line: string)
    ensures LineEntry(line).Ok? <==> !BadKey(line)
    ensures !LineEntry(line).Ok? ==> LineEntry(line) == Raised(ValueError)
    ensures LineEntry(line).Ok? && LineGroups(line).Some? ==>
      LineEntry(line) == Ok(Some((PyInt(LineGroups(line).value.key).value,
                                  Setting(LineGroups(line).value.val, LineGroups(line).value.cmt))))
    ensures LineGroups(line).None? ==> LineEntry(line) == Ok(None)
  {
  }

  /** Loading fails exactly when some matching line has a key `int` refuses,
      and then with `ValueError`. */
  lemma LoadFails(lines: seq<string>)
    ensures Load(lines).Ok? <==> forall i :: 0 <= i < |lines| ==> !BadKey(lines[i])
    ensures !Load(lines).Ok? ==> Load(lines) == Raised(ValueError)
  {
    FillOk(lines, LineEntry);
    forall i | 0 <= i < |lines|
      ensures LineEntry(lines[i]).Ok? <==> !BadKey(lines[i])
    {
      LineEntryFails(lines[i]);
    }
    if !Load(lines).Ok? {
      var k :| 0 <= k < |lines| && SameFailure(LineEntry(lines[k]), Load(lines));
      LineEntryFails(lines[k]);
    }
  }

  /** The key `KeyOf` finds in a line's entry is the number its key reads as. */
  lemma KeyOfLine(line: string)
    ensures KeyOf(LineEntry, line) == LineKey(line)
  {
  }

  /** A later line overwrites an earlier one with the same key: every key a
      line assigns is loaded, with the value and comment of the last line that
      assigns it. */
  lemma LoadKeepsLast(lines: seq<string>, i: nat)
    requires Load(lines).Ok? && i < |lines| && LineKey(lines[i]).Some?
    ensures LineKey(lines[i]).value in Load(lines).value
    ensures (forall j :: i < j < |lines| ==> LineKey(lines[j]) != LineKey(lines[i])) ==>
      Load(lines).value[LineKey(lines[i]).value]
        == Setting(LineGroups(lines[i]).value.val, LineGroups(lines[i]).value.cmt)
  {
    KeyOfLine(lines[i]);
    LineEntryFails(lines[i]);
    FillKeepsRow(lines, LineEntry, i);
    if forall j :: i < j < |lines| ==> LineKey(lines[j]) != LineKey(lines[i]) {
      forall j | i < j < |lines|
        ensures KeyOf(LineEntry, lines[j]) != KeyOf(LineEntry, lines[i])
      {
        KeyOfLine(lines[j]);
      }
    }
  }

  /** Nothing but the keys of the lines is loaded. */
  lemma LoadOnlyLines(lines: seq<string>, key: int)
    requires Load(lines).Ok? && key in Load(lines).value
    ensures exists j :: 0 <= j < |lines| && LineKey(lines[j]) == Some(key)
  {
    FillOnlyKeys(lines, LineEntry, key);
    var j :| 0 <= j < |lines| && KeyOf(LineEntry, lines[j]) == Some(key);
    KeyOfLine(lines[j]);
  }

  // ------------------------------------------------------- round trip

  /** The `=` at `i`, the ` (` at `j` and the `)` at `k` are where the
      pattern places them in the line written for `key`, `val` and `cmt`,
      as long as the value holds no `=` and the comment no ` (`. */
  lemma GreedyOnWritten(key: string, val: string, cmt: string)
    requires AllDigits(key) && '=' !in val && !Contains(cmt, " (")
    ensures Greedy(LineBody(key, val, cmt)).Some?
    ensures Greedy(LineBody(key, val, cmt)).value.0 == |key| + 1
    ensures Greedy(LineBody(key, val, cmt)).value.1 == |key| + 2 + |val|
    ensures Greedy(LineBody(key, val, cmt)).value.2 == |key| + 4 + |val| + |cmt|
  {
    var l := LineBody(key, val, cmt);
    WrittenLayout(key, val, cmt);
    OpenOnWritten(key, val, cmt);
    EqualsOnWritten(key, val, cmt);
    var i0, j0, k0 := |key| + 1, |key| + 2 + |val|, |key| + 4 + |val| + |cmt|;
    GreedyFrom(l, i0, j0, k0);
    assert Greedy(l) == Some((i0, j0, k0));
  }

  /** The ` (` the pattern uses in a written line is the one before the
      comment. */
  lemma OpenOnWritten(key: string, val: string, cmt: string)
    requires !Contains(cmt, " (")
    ensures var l := LineBody(key, val, cmt);
      && LastClose(l, |l|) == |key| + 4 + |val| + |cmt|
      && LastOpen(l, |l|) == |key| + 2 + |val|
  {
    var l := LineBody(key, val, cmt);
    var j0, k0 := |key| + 2 + |val|, |key| + 4 + |val| + |cmt|;
    WrittenLayout(key, val, cmt);
    assert LastClose(l, |l|) == k0;
    assert OpenAt(l, j0);
    forall m | j0 < m < |l|
      ensures !OpenAt(l, m)
    {
      if j0 + 2 <= m <= k0 - 2 && OpenAt(l, m) {
        var p := m - j0 - 2;
        assert l[j0 + 2 + p] == cmt[p] && l[j0 + 2 + (p + 1)] == cmt[p + 1];
        assert cmt[p..p + 2] == " (";
        ContainsAt(cmt, " (", p);
      }
    }
    LastOpenIs(l, j0);
  }

  /** The `=` the pattern uses in a written line is the one after the key. */
  lemma EqualsOnWritten(key: string, val: string, cmt: string)
    requires AllDigits(key) && '=' !in val && !Contains(cmt, " (")
    ensures var l := LineBody(key, val, cmt);
      LastEquals(l, |l|) == |key| + 1
  {
    var l := LineBody(key, val, cmt);
    var i0, j0 := |key| + 1, |key| + 2 + |val|;
    WrittenLayout(key, val, cmt);
    OpenOnWritten(key, val, cmt);
    assert EqualsAt(l, i0);
    forall m | i0 < m < |l|
      ensures !EqualsAt(l, m)
    {
      if m < j0 {
        var p := m - i0 - 1;
        assert l[i0 + 1 + p] == val[p];
      }
    }
    LastEqualsIs(l, i0);
  }

  /** An ` (` with none after it is the one `LastOpen` finds. */
  lemma LastOpenIs(l: string, j: int)
    requires OpenAt(l, j) && forall m :: j < m < |l| ==> !OpenAt(l, m)
    ensures LastOpen(l, |l|) == j
  {
  }

  /** An `=` with none after it is the one `LastEquals` finds. */
  lemma LastEqualsIs(l: string, i: int)
    requires EqualsAt(l, i) && forall m :: i < m < |l| ==> !EqualsAt(l, m)
    ensures LastEquals(l, |l|) == i
  {
  }

  lemma GreedyFrom(l: string, i: int, j: int, k: int)
    requires |l| >= 1 && l[0] == '$' && i >= 1
    requires LastEquals(l, |l|) == i && LastOpen(l, |l|) == j && LastClose(l, |l|) == k
    ensures Greedy(l) == Some((i, j, k))
  {
  }

  /** Where the pieces of a written line sit. */
  lemma WrittenLayout(key: string, val: string, cmt: string)
    ensures var l := LineBody(key, val, cmt);
      var i0, j0, k0 := |key| + 1, |key| + 2 + |val|, |key| + 4 + |val| + |cmt|;
      && |l| == k0 + 1 && l[0] == '$' && l[i0] == '=' && l[j0] == ' ' && l[j0 + 1] == '(' && l[k0] == ')'
      && l[1..i0] == key && l[i0 + 1..j0] == val && l[j0 + 2..k0] == cmt
      && (forall p :: 0 <= p < |val| ==> l[i0 + 1 + p] == val[p])
      && (forall p :: 0 <= p < |cmt| ==> l[j0 + 2 + p] == cmt[p])
  {
    var l := LineBody(key, val, cmt);
    var i0, j0, k0 := |key| + 1, |key| + 2 + |val|, |key| + 4 + |val| + |cmt|;
    LayoutParts(key, val, cmt);
    forall p | 0 <= p < |val|
      ensures l[i0 + 1 + p] == val[p]
    {
      assert l[i0 + 1..j0][p] == val[p];
    }
    forall p | 0 <= p < |cmt|
      ensures l[j0 + 2 + p] == cmt[p]
    {
      assert l[j0 + 2..k0][p] == cmt[p];
    }
  }

  /** The written line, piece by piece. */
  lemma LayoutParts(key: string, val: string, cmt: string)
    ensures var l := LineBody(key, val, cmt);
      var i0, j0, k0 := |key| + 1, |key| + 2 + |val|, |key| + 4 + |val| + |cmt|;
      && |l| == k0 + 1 && l[0] == '$' && l[i0] == '=' && l[j0] == ' ' && l[j0 + 1] == '(' && l[k0] == ')'
      && l[1..i0] == key && l[i0 + 1..j0] == val && l[j0 + 2..k0] == cmt
  {
    var a := "$" + key;
    var b := a + "=";
    var c := b + val;
    var d := c + " (";
    var e := d + cmt;
    var l := e + ")";
    assert l[..|e|] == e && e[..|d|] == d && d[..|c|] == c && c[..|b|] == b && b[..|a|] == a;
  }

  /** A row that reads back as written: the key cell holds a decimal number
      once its dollar signs and surrounding spaces are gone, the value no
      `=`, the comment no ` (`, and neither of them a line break. */
  predicate Readable(row: SettingsRow) {
    && Filled(row)
    && KeyText(row.key.value) != [] && AllDigits(KeyText(row.key.value))
    && '=' !in Strip(row.val.value) && '\n' !in Strip(row.val.value)
    && !Contains(Strip(row.cmt.value), " (") && '\n' !in Strip(row.cmt.value)
  }

  /** The line written for a readable row matches with the row's key, value
      and comment as its groups. */
  lemma WrittenLineMatches(row: SettingsRow)
    requires Readable(row)
    ensures LineGroups(LineText(row.key.value, row.val.value, row.cmt.value))
      == Some(Groups(KeyText(row.key.value), Strip(row.val.value), Strip(row.cmt.value)))
    ensures LineKey(LineText(row.key.value, row.val.value, row.cmt.value))
      == Some(DigitsValue(KeyText(row.key.value)))
  {
    var k, v, c := KeyText(row.key.value), Strip(row.val.value), Strip(row.cmt.value);
    var l := LineBody(k, v, c);
    LineTextBody(row.key.value, row.val.value, row.cmt.value);
    BodyMatches(k, v, c);
    FirstLineAppend(l, "\n");
    PyIntDigits(k);
  }

  /** A line body whose pieces cannot be confused matches with its pieces as
      the groups. */
  lemma BodyMatches(key: string, val: string, cmt: string)
    requires AllDigits(key) && '=' !in val && '\n' !in val && !Contains(cmt, " (") && '\n' !in cmt
    ensures '\n' !in LineBody(key, val, cmt)
    ensures MatchLine(LineBody(key, val, cmt)) == Some(Groups(key, val, cmt))
  {
    var l := LineBody(key, val, cmt);
    WrittenLayout(key, val, cmt);
    GreedyOnWritten(key, val, cmt);
    assert '\n' !in key;
    assert l == "$" + key + "=" + val + " (" + cmt + ")";
  }

  /** What a row of the table stands for in the dictionary: its number with
      its stripped value and comment. */
  function TableEntry(row: SettingsRow): Outcome<Option<(int, Setting)>> {
    if Readable(row) then
      Ok(Some((DigitsValue(KeyText(row.key.value)), Setting(Strip(row.val.value), Strip(row.cmt.value)))))
    else Ok(None)
  }

  lemma ReadWritten(rows: seq<SettingsRow>)
    requires forall i :: 0 <= i < |rows| ==> Filled(rows[i]) && Readable(rows[i])
    ensures Load(Written(rows)) == Fill(rows, TableEntry)
  {
    forall i | 0 <= i < |rows|
      ensures LineEntry(Written(rows)[i]) == TableEntry(rows[i])
    {
      WrittenAt(rows, i);
      WrittenLineMatches(rows[i]);
      LineEntryFails(Written(rows)[i]);
    }
    FillAlike(Written(rows), LineEntry, rows, TableEntry);
  }

  lemma {:induction false} JoinLines(lines: seq<string>)
    requires forall i :: 0 <= i < |lines| ==>
      |lines[i]| >= 1 && lines[i][|lines[i]| - 1] == '\n' && '\n' !in lines[i][..|lines[i]| - 1]
    ensures FileLines(Join(lines)) == lines
  {
    if lines != [] {
      var l := lines[0];
      JoinLines(lines[1..]);
      assert l == l[..|l| - 1] + "\n";
      FileLinesCons(l[..|l| - 1], Join(lines[1..]));
    }
  }

  /** Saving a table of readable rows and loading the file gives back every
      row's number, value and comment, as the table holds them. */
  lemma SaveThenLoad(rows: seq<SettingsRow>)
    requires forall i :: 0 <= i < |rows| ==> Readable(rows[i])
    ensures SettingsText(rows).Ok?
    ensures Load(FileLines(SettingsText(rows).value)) == Fill(rows, TableEntry)
  {
    assert forall i :: 0 <= i < |rows| ==> Filled(rows[i]) && Readable(rows[i]);
    SettingsTextOk(rows);
    var lines := Written(rows);
    forall i | 0 <= i < |rows|
      ensures |lines[i]| >= 1 && lines[i][|lines[i]| - 1] == '\n' && '\n' !in lines[i][..|lines[i]| - 1]
    {
      WrittenAt(rows, i);
      WrittenLineEnds(rows[i]);
    }
    JoinLines(lines);
    ReadWritten(rows);
  }

  /** The line of a readable row ends at its newline and holds no other. */
  lemma WrittenLineEnds(row: SettingsRow)
    requires Readable(row)
    ensures var l := LineText(row.key.value, row.val.value, row.cmt.value);
      |l| >= 1 && l[|l| - 1] == '\n' && '\n' !in l[..|l| - 1]
  {
    var k, v, c := KeyText(row.key.value), Strip(row.val.value), Strip(row.cmt.value);
    var l := LineText(row.key.value, row.val.value, row.cmt.value);
    LineTextBody(row.key.value, row.val.value, row.cmt.value);
    BodyMatches(k, v, c);
    assert l[..|l| - 1] == LineBody(k, v, c);
  }

  lemma {:induction false} WrittenAt(rows: seq<SettingsRow>, i: nat)
    requires forall j :: 0 <= j < |rows| ==> Filled(rows[j])
    requires i < |rows|
    ensures Written(rows)[i] == LineText(rows[i].key.value, rows[i].val.value, rows[i].cmt.value)
  {
    if i > 0 {
      WrittenAt(rows[1..], i - 1);
    }
  }
}
