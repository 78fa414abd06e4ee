/** `/LISTLANG` (`on_cmd_listlang` in src/lib.rs): the supported languages
    printed three to a line, in table order. The column formatting of each
    line is not modelled; a line is the triple of entries it shows. */
module Listing {
  import opened Wrappers
  import opened Languages
  import opened Hexchat

  /** One printed line: three consecutive table entries. */
  type Row = (LangInfo, LangInfo, LangInfo)

  /** The entries the rows show, read line by line, left to right. */
  function Flatten(rows: seq<Row>): (entries: seq<LangInfo>)
    ensures |entries| == 3 * |rows|
  {
    if rows == [] then []
    else
      var last := rows[|rows| - 1];
      Flatten(rows[..|rows| - 1]) + [last.0, last.1, last.2]
  }

  /** Row `r` shows entries `3r`, `3r+1` and `3r+2` of what the rows
      show. */
  lemma {:induction false} FlattenAt(rows: seq<Row>, r: nat)
    requires r < |rows|
    ensures Flatten(rows)[3 * r] == rows[r].0
    ensures Flatten(rows)[3 * r + 1] == rows[r].1
    ensures Flatten(rows)[3 * r + 2] == rows[r].2
  {
    if r < |rows| - 1 {
      FlattenAt(rows[..|rows| - 1], r);
      assert rows[..|rows| - 1][r] == rows[r];
    }
  }

  /** The `step_by(3)` loop: the rows of three that list `langs` in order.
      The loop reads `langs[i + 1]` and `langs[i + 2]` unchecked, so it
      needs a table whose length is a multiple of three. */
  method GroupRows(langs: seq<LangInfo>) returns (rows: seq<Row>)
    requires |langs| % 3 == 0
    ensures Flatten(rows) == langs
    ensures |rows| == |langs| / 3
  {
    rows := [];
    var i := 0;
    while i < |langs|
      invariant 0 <= i <= |langs| && i % 3 == 0
      invariant Flatten(rows) == langs[..i]
    {
      var row := (langs[i], langs[i + 1], langs[i + 2]);
      assert (rows + [row])[..|rows|] == rows;
      assert langs[..i + 3] == langs[..i] + [row.0, row.1, row.2];
      rows := rows + [row];
      i := i + 3;
    }
    assert langs[..i] == langs;
  }

  /** The table holds 102 entries, 34 full rows of three. */
  lemma TableSize()
    ensures |SupportedLanguages| == 102 && |SupportedLanguages| % 3 == 0
  {
  }

  /** `on_cmd_listlang`: with no argument it lists every supported language
      once, in table order, in 34 rows of three; with any argument it only
      prints its usage line. It always returns `Eat::All`. */
  method OnCmdListLang(word: seq<string>) returns (eat: Eat, listing: Option<seq<Row>>)
    ensures eat == EatAll
    ensures listing.Some? <==> |word| == 1
    ensures listing.Some? ==> Flatten(listing.value) == SupportedLanguages && |listing.value| == 34
  {
    if |word| == 1 {
      TableSize();
      var rows := GroupRows(SupportedLanguages);
      listing := Some(rows);
    } else {
      listing := None;
    }
    eat := EatAll;
  }
}
