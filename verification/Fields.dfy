/**
 The in-place line splitters: tab fields and comma tokens of
 components/conformance/src/main.c, pipe fields of
 components/repository-receipt/src/main.c. Offsets stand for the char pointers.
 */
module Fields {
  import opened Text

  /** A line as fgets leaves it: no NUL before its terminator. */
  type Line = s: string | '\0' !in s witness ""

  function BeforeNewline(s: string): string { s[..IndexOf(s, '\n')] }

  function AtMost(parts: seq<string>, maximum: nat): seq<string> {
    if |parts| <= maximum then parts else parts[..maximum]
  }

  /** How a separator cuts text; lines says whether a newline ends it as well. */
  datatype Style = Style(separator: char, lines: bool) {
    predicate Sane() { separator != '\0' && separator != '\n' }

    predicate Stops(c: char) { c == separator || (lines && c == '\n') }

    function Visible(s: string): string { if lines then BeforeNewline(s) else s }

    function Pieces(s: string): (parts: seq<string>)
      ensures |parts| >= 1
    {
      Split(Visible(s), separator)
    }
  }

  const TABS := Style('\t', true)
  const PIPES := Style('|', false)

  /** The tab-separated fields of a line; text after the last allowed one is dropped. */
  function TabFields(line: string, maximum: nat): seq<string> { AtMost(TABS.Pieces(line), maximum) }

  /** Splitting undoes joining, up to the fields the caller allows. */
  lemma TabFieldsOfJoin(parts: seq<string>, ending: string, maximum: nat)
    requires |parts| >= 1
    requires forall i :: 0 <= i < |parts| ==> '\t' !in parts[i] && '\n' !in parts[i]
    requires ending == "" || ending[0] == '\n'
    ensures TabFields(Join(parts, '\t') + ending, maximum) == AtMost(parts, maximum)
  {
    var s := Join(parts, '\t');
    JoinAvoids(parts, '\t', '\n');
    assert (s + ending)[..|s|] == s;
    IndexOfUnique(s + ending, '\n', |s|);
    SplitOfJoin(parts, '\t');
  }

  lemma {:induction false} JoinAvoids(parts: seq<string>, separator: char, c: char)
    requires |parts| >= 1 && c != separator
    requires forall i :: 0 <= i < |parts| ==> c !in parts[i]
    ensures c !in Join(parts, separator)
  {
    if |parts| > 1 {
      JoinAvoids(parts[1..], separator, c);
    }
  }

  /** One step of a splitter: the piece is text[cursor..j]. */
  lemma PieceStep(style: Style, text: string, cursor: nat, j: nat)
    requires style.Sane() && cursor <= j <= |text|
    requires forall k :: cursor <= k < j ==> !style.Stops(text[k])
    requires j < |text| ==> style.Stops(text[j])
    ensures var parts := style.Pieces(text[cursor..]);
            && parts[0] == text[cursor..j]
            && parts[1..] == if j < |text| && text[j] == style.separator then style.Pieces(text[j + 1..]) else []
  {
    var s, n := text[cursor..], j - cursor;
    assert s[..n] == text[cursor..j];
    forall k | 0 <= k < n ensures !style.Stops(s[k]) {
      assert s[k] == text[cursor + k];
    }
    assert j < |text| ==> s[n] == text[j] && s[n + 1..] == text[j + 1..];
    hide Style.Pieces;
    if j < |text| && text[j] == style.separator {
      PieceBeforeSeparator(style, s, n);
    } else {
      LastPiece(style, s, n);
    }
  }

  lemma PieceBeforeSeparator(style: Style, s: string, n: nat)
    requires style.Sane() && n < |s| && s[n] == style.separator
    requires forall k :: 0 <= k < n ==> !style.Stops(s[k])
    ensures style.Pieces(s) == [s[..n]] + style.Pieces(s[n + 1..])
  {
    VisiblePast(style, s, n);
    NoStopInside(style, s, n);
    hide Split, IndexOf, Style.Visible, Style.Stops;
    var shown := style.Visible(s);
    assert shown[n] == s[n] && shown[..n] == s[..n];
    CutAround(shown, n);
    FirstPiece(s[..n], style.separator, shown[n + 1..]);
  }

  lemma NoStopInside(style: Style, s: string, n: nat)
    requires n <= |s| && forall k :: 0 <= k < n ==> !style.Stops(s[k])
    ensures style.separator !in s[..n]
    ensures style.lines ==> '\n' !in s[..n]
  {
  }

  /** What is visible after a separator is what was visible there before. */
  lemma VisiblePast(style: Style, s: string, n: nat)
    requires style.Sane() && n < |s| && s[n] == style.separator
    requires forall k :: 0 <= k < n ==> !style.Stops(s[k])
    ensures var shown := style.Visible(s);
            n < |shown| && shown <= s && shown[n + 1..] == style.Visible(s[n + 1..])
  {
  }

  lemma LastPiece(style: Style, s: string, n: nat)
    requires style.Sane() && n <= |s| && (n < |s| ==> s[n] != style.separator && style.Stops(s[n]))
    requires forall k :: 0 <= k < n ==> !style.Stops(s[k])
    ensures style.Pieces(s) == [s[..n]]
  {
    NoStopInside(style, s, n);
    if style.lines {
      IndexOfUnique(s, '\n', n);
    }
    assert style.Visible(s) == s[..n];
    LonePiece(s[..n], style.separator);
  }

  /** Where the fields of a buffer start and end once their separators are NULs. */
  ghost predicate Cut(buffer: seq<char>, starts: seq<nat>, ends: seq<nat>, parts: seq<string>, limit: nat) {
    && |starts| == |ends| <= |parts| && limit <= |buffer|
    && forall i :: 0 <= i < |starts| ==>
         && starts[i] <= ends[i] < limit
         && buffer[ends[i]] == '\0' && buffer[starts[i]..ends[i]] == parts[i]
         && '\0' !in parts[i]
  }

  /** The C strings at the offsets are the fields. */
  predicate Readable(buffer: seq<char>, offsets: seq<nat>, fields: seq<string>) {
    && |offsets| == |fields|
    && forall i :: 0 <= i < |offsets| ==> offsets[i] < |buffer| && CString(buffer, offsets[i]) == fields[i]
  }

  lemma CutIsReadable(buffer: seq<char>, starts: seq<nat>, ends: seq<nat>, parts: seq<string>, limit: nat, maximum: nat)
    requires Cut(buffer, starts, ends, parts, limit) && |starts| <= maximum
    requires |starts| == |parts| || |starts| == maximum
    ensures Readable(buffer, starts, AtMost(parts, maximum))
  {
    hide CString;
    forall i | 0 <= i < |starts| ensures starts[i] < |buffer| && CString(buffer, starts[i]) == parts[i] {
      CutReads(buffer, starts, ends, parts, limit, i);
    }
  }

  lemma CutReads(buffer: seq<char>, starts: seq<nat>, ends: seq<nat>, parts: seq<string>, limit: nat, i: nat)
    requires Cut(buffer, starts, ends, parts, limit) && i < |starts|
    ensures starts[i] < |buffer| && CString(buffer, starts[i]) == parts[i]
  {
    hide CString;
    assert forall k :: starts[i] <= k < ends[i] ==> buffer[k] == parts[i][k - starts[i]];
    CStringIs(buffer, starts[i], ends[i]);
  }

  /** One more field, ended by writing a NUL at j, which no earlier field reaches. */
  lemma CutGrows(before: seq<char>, after: seq<char>, starts: seq<nat>, ends: seq<nat>, parts: seq<string>,
                 limit: nat, cursor: nat, j: nat)
    requires Cut(before, starts, ends, parts, limit) && limit <= cursor <= j < |before|
    requires after == before[j := '\0']
    requires |starts| < |parts| && parts[|starts|] == before[cursor..j] && '\0' !in parts[|starts|]
    ensures Cut(after, starts + [cursor], ends + [j], parts, j + 1)
  {
  }

  /** The splitter stands at cursor: pieces before it are cut, text from it on is untouched. */
  ghost predicate SplitState(style: Style, original: seq<char>, now: seq<char>, starts: seq<nat>, ends: seq<nat>,
                             text: string, parts: seq<string>, cursor: nat)
  {
    && |now| == |original| && cursor <= |text| < |original|
    && original[..|text|] == text && original[|text|] == '\0' && '\0' !in text
    && now[cursor..] == original[cursor..]
    && Cut(now, starts, ends, parts, cursor)
    && parts[|starts|..] == style.Pieces(text[cursor..])
  }

  lemma SplitStarts(style: Style, original: seq<char>)
    requires '\0' in original
    ensures var text := CString(original, 0);
            Cutting(style, original, original, [], [], text, style.Pieces(text), 0, false)
  {
  }

  lemma SplitAdvances(style: Style, original: seq<char>, now: seq<char>, starts: seq<nat>, ends: seq<nat>,
                      text: string, parts: seq<string>, cursor: nat, j: nat)
    requires style.Sane() && SplitState(style, original, now, starts, ends, text, parts, cursor)
    requires cursor <= j <= |text|
    requires forall k :: cursor <= k < j ==> now[k] != '\0' && !style.Stops(now[k])
    requires now[j] == '\0' || style.Stops(now[j])
    ensures now[j] == style.separator ==>
              SplitState(style, original, now[j := '\0'], starts + [cursor], ends + [j], text, parts, j + 1)
    ensures now[j] != style.separator ==>
              Cut(now[j := '\0'], starts + [cursor], ends + [j], parts, j + 1) && |parts| == |starts| + 1
  {
    forall k | cursor <= k <= |text| ensures now[k] == original[k] && (k < |text| ==> original[k] == text[k]) {
      assert now[cursor..][k - cursor] == original[cursor..][k - cursor];
      assert k < |text| ==> original[..|text|][k] == text[k];
    }
    assert j < |text| ==> text[j] in text;
    PieceStep(style, text, cursor, j);
    var rest := parts[|starts|..];
    assert parts[|starts|] == rest[0] == text[cursor..j] == now[cursor..j];
    assert forall c :: c in text[cursor..j] ==> c in text;
    CutGrows(now, now[j := '\0'], starts, ends, parts, cursor, cursor, j);
    assert rest[1..] == parts[|starts| + 1..];
    assert now[j := '\0'][j + 1..] == now[cursor..][j + 1 - cursor..];
    assert original[cursor..][j + 1 - cursor..] == original[j + 1..];
  }

  method PieceEnd(style: Style, line: array<char>, cursor: nat, ghost last: nat) returns (j: nat)
    requires cursor <= last < line.Length && line[last] == '\0'
    ensures cursor <= j <= last
    ensures forall k :: cursor <= k < j ==> line[k] != '\0' && !style.Stops(line[k])
    ensures line[j] == '\0' || style.Stops(line[j])
  {
    j := cursor;
    while line[j] != '\0' && !style.Stops(line[j])
      invariant cursor <= j <= last
      invariant forall k :: cursor <= k < j ==> line[k] != '\0' && !style.Stops(line[k])
      decreases last - j
    {
      j := j + 1;
    }
  }

  /** Finds the end of the piece at cursor and overwrites whatever ended it. */
  method CutPiece(style: Style, line: array<char>, cursor: nat, ghost original: seq<char>, ghost starts: seq<nat>,
                  ghost ends: seq<nat>, ghost text: string, ghost parts: seq<string>)
    returns (j: nat, stop: char, ghost now: seq<char>)
    requires style.Sane() && SplitState(style, original, line[..], starts, ends, text, parts, cursor)
    modifies line
    ensures now == line[..]
    ensures Cutting(style, original, now, starts + [cursor], ends + [j], text, parts, j + 1, stop != style.separator)
  {
    SplitTerminated(style, original, line[..], starts, ends, text, parts, cursor);
    hide SplitState, Cut, CString;
    j := PieceEnd(style, line, cursor, |text|);
    SplitAdvances(style, original, line[..], starts, ends, text, parts, cursor, j);
    stop := line[j];
    ghost var before := line[..];
    line[j] := '\0';
    now := line[..];
    assert now == before[j := '\0'];
    CuttingMeans(style, original, now, starts + [cursor], ends + [j], text, parts, j + 1, stop != style.separator);
  }

  /** Part of the way through a line, or at its end. */
  ghost predicate Cutting(style: Style, original: seq<char>, now: seq<char>, starts: seq<nat>, ends: seq<nat>,
                          text: string, parts: seq<string>, cursor: nat, exhausted: bool)
  {
    if exhausted then Cut(now, starts, ends, parts, cursor) && |starts| == |parts|
    else SplitState(style, original, now, starts, ends, text, parts, cursor)
  }

  lemma CuttingMeans(style: Style, original: seq<char>, now: seq<char>, starts: seq<nat>, ends: seq<nat>,
                     text: string, parts: seq<string>, cursor: nat, exhausted: bool)
    ensures Cutting(style, original, now, starts, ends, text, parts, cursor, exhausted) <==>
            if exhausted then Cut(now, starts, ends, parts, cursor) && |starts| == |parts|
            else SplitState(style, original, now, starts, ends, text, parts, cursor)
    ensures Cutting(style, original, now, starts, ends, text, parts, cursor, exhausted) ==>
              Cut(now, starts, ends, parts, cursor) && (exhausted <==> |starts| == |parts|)
  {
  }

  lemma SplitTerminated(style: Style, original: seq<char>, now: seq<char>, starts: seq<nat>, ends: seq<nat>,
                        text: string, parts: seq<string>, cursor: nat)
    requires SplitState(style, original, now, starts, ends, text, parts, cursor)
    ensures cursor <= |text| < |now| && now[|text|] == '\0'
    ensures Cut(now, starts, ends, parts, cursor)
  {
  }

  method SplitFields(line: array<char>, maximum: nat) returns (fields: seq<nat>)
    requires '\0' in line[..]
    modifies line
    ensures Readable(line[..], fields, TabFields(CString(old(line[..]), 0), maximum))
  {
    hide SplitState, Cutting, Cut, CString, Readable, TabFields, AtMost, Style.Pieces;
    ghost var original := line[..];
    ghost var text := CString(original, 0);
    ghost var parts := TABS.Pieces(text);
    ghost var ends: seq<nat> := [];
    SplitStarts(TABS, original);
    TabFieldsAre(text, maximum);
    fields := [];
    var cursor := 0;
    ghost var now := original;
    while |fields| < maximum
      invariant |fields| <= maximum && now == line[..]
      invariant Cutting(TABS, original, now, fields, ends, text, parts, cursor, false)
      decreases maximum - |fields|
    {
      CuttingMeans(TABS, original, now, fields, ends, text, parts, cursor, false);
      var j, stop;
      j, stop, now := CutPiece(TABS, line, cursor, original, fields, ends, text, parts);
      fields, ends := fields + [cursor], ends + [j];
      if stop != '\t' {
        CuttingMeans(TABS, original, now, fields, ends, text, parts, j + 1, true);
        CutIsReadable(now, fields, ends, parts, j + 1, maximum);
        return;
      }
      cursor := j + 1;
    }
    CuttingMeans(TABS, original, now, fields, ends, text, parts, cursor, false);
    CutIsReadable(now, fields, ends, parts, cursor, maximum);
  }

  const RESULT_FIELDS: nat := 6

  /** The pipe splitter wants exactly six fields; after the sixth there must be no separator left. */
  method SplitPipes(line: array<char>) returns (ok: bool, fields: seq<nat>)
    requires '\0' in line[..]
    modifies line
    ensures ok <==> Count(CString(old(line[..]), 0), '|') == RESULT_FIELDS - 1
    ensures ok ==> |fields| == RESULT_FIELDS && Readable(line[..], fields, Split(CString(old(line[..]), 0), '|'))
  {
    hide SplitState, Cutting, Cut, CString, Readable, Split, Count, Join, AtMost, Style.Pieces;
    ghost var original := line[..];
    ghost var text := CString(original, 0);
    ghost var parts := PIPES.Pieces(text);
    ghost var ends: seq<nat> := [];
    SplitStarts(PIPES, original);
    PipePieces(text);
    fields := [];
    var cursor := 0;
    var exhausted := false;
    ghost var now := original;
    while |fields| < RESULT_FIELDS && !exhausted
      invariant |fields| <= RESULT_FIELDS && now == line[..]
      invariant Cutting(PIPES, original, now, fields, ends, text, parts, cursor, exhausted)
      decreases RESULT_FIELDS - |fields|
    {
      CuttingMeans(PIPES, original, now, fields, ends, text, parts, cursor, false);
      var j, stop;
      j, stop, now := CutPiece(PIPES, line, cursor, original, fields, ends, text, parts);
      exhausted := stop != '|';
      fields, ends, cursor := fields + [cursor], ends + [j], j + 1;
    }
    CuttingMeans(PIPES, original, now, fields, ends, text, parts, cursor, exhausted);
    ok := |fields| == RESULT_FIELDS && exhausted;
    if exhausted {
      CutIsReadable(now, fields, ends, parts, cursor, RESULT_FIELDS);
      AtMostAll(parts, RESULT_FIELDS);
    }
  }

  lemma TabFieldsAre(line: string, maximum: nat)
    ensures TabFields(line, maximum) == AtMost(TABS.Pieces(line), maximum)
  {
  }

  lemma PipePieces(line: string)
    ensures PIPES.Pieces(line) == Split(line, '|') && |Split(line, '|')| == Count(line, '|') + 1
  {
    JoinOfSplit(line, '|');
  }

  lemma AtMostAll(parts: seq<string>, maximum: nat)
    requires |parts| <= maximum
    ensures AtMost(parts, maximum) == parts
  {
  }

  /** Six fields joined by pipes are accepted and come back; any other number is not accepted. */
  lemma PipesUndoJoin(parts: seq<string>)
    requires |parts| >= 1 && forall i :: 0 <= i < |parts| ==> '|' !in parts[i]
    ensures Count(Join(parts, '|'), '|') == RESULT_FIELDS - 1 <==> |parts| == RESULT_FIELDS
    ensures Split(Join(parts, '|'), '|') == parts
  {
    SplitOfJoin(parts, '|');
    JoinOfSplit(Join(parts, '|'), '|');
  }

  /** Copies a line into a fresh buffer and splits it there. */
  method SplitLine(line: Line, maximum: nat) returns (fields: seq<string>)
    ensures fields == TabFields(line, maximum)
  {
    var buffer := NewBuffer(line);
    var starts := SplitFields(buffer, maximum);
    fields := seq(|starts|, i requires 0 <= i < |starts| reads buffer => CString(buffer[..], starts[i]));
  }

  method NewBuffer(text: Line) returns (buffer: array<char>)
    ensures fresh(buffer) && buffer[..] == text + "\0"
    ensures CString(buffer[..], 0) == text
  {
    var terminated := text + "\0";
    buffer := new char[|terminated|](i requires 0 <= i < |terminated| => terminated[i]);
    assert buffer[..] == terminated;
    assert terminated[0..] == terminated && terminated[..|text|] == text;
    IndexOfUnique(terminated, '\0', |text|);
  }

  // ----- comma lists -----

  /** The tokens of a comma list: one split, without an empty token at the very end. */
  function Tokens(list: string): seq<string> {
    var parts := Split(list, ',');
    if parts[|parts| - 1] == "" then parts[..|parts| - 1] else parts
  }

  /** Joining tokens with commas and taking them apart again; a last one that is empty is lost. */
  lemma TokensOfJoin(parts: seq<string>)
    requires |parts| >= 1 && forall i :: 0 <= i < |parts| ==> ',' !in parts[i]
    ensures Tokens(Join(parts, ',')) == if parts[|parts| - 1] == "" then parts[..|parts| - 1] else parts
  {
    hide Split, Join;
    SplitOfJoin(parts, ',');
  }

  lemma TokensStep(list: string, j: nat)
    requires list != "" && j <= |list| && ',' !in list[..j] && (j < |list| ==> list[j] == ',')
    ensures Tokens(list) == [list[..j]] + if j < |list| then Tokens(list[j + 1..]) else []
  {
    IndexOfUnique(list, ',', j);
    assert j < |list| ==> Split(list, ',')[1..] == Split(list[j + 1..], ',');
  }

  /** One token of a list, at an offset of it. */
  lemma TokenAt(list: string, start: nat, end: nat)
    requires start <= end <= |list| && start < |list|
    requires forall k :: start <= k < end ==> list[k] != ','
    requires end < |list| ==> list[end] == ','
    ensures var next := if end < |list| then end + 1 else end;
            Tokens(list[start..]) == [list[start..end]] + Tokens(list[next..])
  {
    assert list[start..][..end - start] == list[start..end];
    TokensStep(list[start..], end - start);
    assert end < |list| ==> list[start..][end - start + 1..] == list[end + 1..];
    assert end == |list| ==> list[end..] == "";
  }

  method TokenEnd(list: string, start: nat) returns (end: nat)
    requires start <= |list|
    ensures start <= end <= |list|
    ensures forall k :: start <= k < end ==> list[k] != ','
    ensures end < |list| ==> list[end] == ','
  {
    end := start;
    while end < |list| && list[end] != ','
      invariant start <= end <= |list|
      invariant forall k :: start <= k < end ==> list[k] != ','
    {
      end := end + 1;
    }
  }

  /** list_contains walks the list without changing it. */
  method ListContains(list: string, value: string) returns (found: bool)
    ensures found <==> value in Tokens(list)
  {
    hide Tokens;
    var start := 0;
    found := false;
    assert list[0..] == list;
    while start < |list|
      invariant start <= |list| && !found
      invariant value in Tokens(list[start..]) <==> value in Tokens(list)
    {
      var end := TokenEnd(list, start);
      TokenAt(list, start, end);
      if end - start == |value| && list[start..end] == value {
        return true;
      }
      start := if end < |list| then end + 1 else end;
    }
    NoTokens(list[start..]);
  }

  lemma NoTokens(list: string)
    requires list == ""
    ensures Tokens(list) == []
  {
  }
}
