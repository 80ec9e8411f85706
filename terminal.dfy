/** Replay of terminal output into the text a screen would show
    (packages/opencode/src/util/terminal.ts).

    The renderer is a single pass over the input with a cursor (`row`, `col`)
    and a growing list of lines. Printable characters overwrite the cell under
    the cursor; carriage return, newline, tab and backspace move the cursor;
    a subset of the ECMA-48 control sequences (cursor movement, erase in
    display, erase in line, select graphic rendition) is interpreted; OSC
    strings and other escapes are skipped. At the end trailing empty lines are
    dropped and every line is right-trimmed.

    The functions below give the meaning of one step of the loop (`Step`) and
    of the whole replay (`Render`); the method `RenderTerminal` is the loop
    itself, proved to compute `Render`. */
module Terminal {
  import opened Wrappers
  import opened JsText

  const ESC: char := '\U{1B}'
  const BEL: char := '\U{07}'

  /** The screen: its lines and the cursor. */
  datatype Screen = Screen(lines: seq<string>, row: nat, col: nat)

  const Initial: Screen := Screen([""], 0, 0)

  /** The renderer's invariant: there is always a line, and the cursor row exists. */
  predicate Valid(sc: Screen) {
    |sc.lines| >= 1 && sc.row < |sc.lines|
  }

  function Max0(n: int): nat {
    if n < 0 then 0 else n
  }

  /** `" ".repeat(n)` */
  function Spaces(n: nat): (s: string)
    ensures |s| == n && forall k :: 0 <= k < n ==> s[k] == ' '
  {
    seq(n, _ => ' ')
  }

  /** `ensureRow`: append empty lines until row `r` exists. */
  function EnsureRow(lines: seq<string>, r: nat): (res: seq<string>)
    ensures |res| == if r < |lines| then |lines| else r + 1
    ensures res[..|lines|] == lines
    ensures forall k :: |lines| <= k < |res| ==> res[k] == ""
  {
    if r < |lines| then lines else lines + seq(r + 1 - |lines|, _ => "")
  }

  /** `ensureCol`: pad a line with spaces up to length `c`. */
  function EnsureCol(line: string, c: nat): string {
    if |line| < c then line + Spaces(c - |line|) else line
  }

  /** `writeChar`: the character replaces the cell under the cursor (the line
      is first padded to the cursor), and the cursor moves one cell right. */
  function WriteChar(sc: Screen, ch: char): Screen {
    var lines := EnsureRow(sc.lines, sc.row);
    var line := EnsureCol(lines[sc.row], sc.col);
    Screen(lines[sc.row := line[..sc.col] + [ch] + SliceFrom(line, sc.col + 1)], sc.row, sc.col + 1)
  }

  /** The tab loop: write spaces until the cursor reaches `stop`. */
  function TabTo(sc: Screen, stop: nat): Screen
    decreases stop - sc.col
  {
    if sc.col < stop then TabTo(WriteChar(sc, ' '), stop) else sc
  }

  /** The next tab stop: the next multiple of 8 strictly after `col`. */
  function TabStop(col: nat): nat {
    (col / 8) * 8 + 8
  }

  /** A character that is not part of an escape sequence. */
  function Control(sc: Screen, c: char): Screen {
    if c == '\r' then sc.(col := 0)
    else if c == '\n' then Screen(EnsureRow(sc.lines, sc.row + 1), sc.row + 1, 0)
    else if c == '\t' then TabTo(sc, TabStop(sc.col))
    else if c == '\U{08}' then sc.(col := Max0(sc.col - 1))
    else if c as int >= 32 then WriteChar(sc, c)
    else sc
  }

  // Control sequence parameters

  predicate IsParamChar(c: char) {
    IsDigit(c) || c == ';'
  }

  /** Numeric parameters as the source reads them: an empty parameter string
      gives no parameters; otherwise each `;`-separated piece is a number,
      or absent when empty. */
  function Params(p: string): seq<Option<nat>>
    requires forall k :: 0 <= k < |p| ==> IsParamChar(p[k])
  {
    if p == [] then []
    else
      SplitKeeps(p, ';', IsParamChar);
      PieceValues(Split(p, ';'))
  }

  function PieceValues(pieces: seq<string>): (r: seq<Option<nat>>)
    requires forall p :: p in pieces ==> forall k :: 0 <= k < |p| ==> IsParamChar(p[k]) && p[k] != ';'
    ensures |r| == |pieces|
  {
    if pieces == [] then []
    else
      var p := pieces[0];
      assert p in pieces;
      assert forall k :: 0 <= k < |p| ==> IsParamChar(p[k]) && p[k] != ';';
      assert forall k :: 0 <= k < |p| ==> IsDigit(p[k]);
      [if p == [] then None else Some(DigitsValue(p))] + PieceValues(pieces[1..])
  }

  /** `nums[k] ?? d`: an absent or missing parameter takes the default; an
      explicit value (0 included) is used as it is. */
  function Arg(nums: seq<Option<nat>>, k: nat, d: nat): nat {
    if k < |nums| && nums[k].Some? then nums[k].value else d
  }

  /** Erase in line (final byte K) on one line. */
  function EraseLine(line: string, col: nat, mode: nat): string {
    if mode == 0 then SliceTo(line, col)
    else if mode == 1 then Spaces(col) + SliceFrom(line, col)
    else if mode == 2 then ""
    else line
  }

  /** Blank every row above `row`. */
  function BlankAbove(lines: seq<string>, row: nat): (res: seq<string>)
    ensures |res| == |lines|
    ensures forall k :: 0 <= k < |lines| ==> res[k] == if k < row then "" else lines[k]
  {
    seq(|lines|, k requires 0 <= k < |lines| => if k < row then "" else lines[k])
  }

  /** Erase in display (final byte J). */
  function EraseDisplay(sc: Screen, mode: nat): Screen
    requires sc.row < |sc.lines|
  {
    var line := sc.lines[sc.row];
    if mode == 0 then sc.(lines := sc.lines[sc.row := SliceTo(line, sc.col)][..sc.row + 1])
    else if mode == 1 then sc.(lines := BlankAbove(sc.lines[sc.row := Spaces(sc.col) + SliceFrom(line, sc.col)], sc.row))
    else if mode == 2 || mode == 3 then Initial
    else sc
  }

  /** A control sequence `ESC [ params cmd`; `cmd` is `None` when the input
      ends before the final byte. */
  function Csi(sc: Screen, cmd: Option<char>, nums: seq<Option<nat>>): Screen {
    if cmd == Some('A') then sc.(row := Max0(sc.row - Arg(nums, 0, 1)))
    else if cmd == Some('B') then
      var r := sc.row + Arg(nums, 0, 1);
      Screen(EnsureRow(sc.lines, r), r, sc.col)
    else if cmd == Some('C') then sc.(col := sc.col + Arg(nums, 0, 1))
    else if cmd == Some('D') then sc.(col := Max0(sc.col - Arg(nums, 0, 1)))
    else if cmd == Some('H') || cmd == Some('f') then
      var r := Max0(Arg(nums, 0, 1) - 1);
      Screen(EnsureRow(sc.lines, r), r, Max0(Arg(nums, 1, 1) - 1))
    else if cmd == Some('J') then
      EraseDisplay(sc.(lines := EnsureRow(sc.lines, sc.row)), Arg(nums, 0, 0))
    else if cmd == Some('K') then
      var lines := EnsureRow(sc.lines, sc.row);
      sc.(lines := lines[sc.row := EraseLine(lines[sc.row], sc.col, Arg(nums, 0, 0))])
    else sc
  }

  /** Where an OSC string that starts at `j` ends: just after BEL, just after
      `ESC \`, or at the end of the input. */
  function OscEnd(input: string, j: nat): (e: nat)
    requires j <= |input|
    ensures j <= e <= |input|
    decreases |input| - j
  {
    if j == |input| then j
    else if input[j] == BEL then j + 1
    else if input[j] == ESC && j + 1 < |input| && input[j + 1] == '\\' then j + 2
    else OscEnd(input, j + 1)
  }

  /** The end of the run of parameter characters that starts at `j`. */
  function ParamsEnd(input: string, j: nat): (e: nat)
    requires j <= |input|
    ensures j <= e <= |input|
    ensures forall k :: j <= k < e ==> IsParamChar(input[k])
    ensures e < |input| ==> !IsParamChar(input[e])
    decreases |input| - j
  {
    if j < |input| && IsParamChar(input[j]) then ParamsEnd(input, j + 1) else j
  }

  /** One pass of the main loop at position `i`: the next position and the new screen. */
  function Step(input: string, i: nat, sc: Screen): (res: (nat, Screen))
    requires i < |input|
    ensures res.0 > i
  {
    if input[i] == ESC && i + 1 < |input| && input[i + 1] == ']' then
      (OscEnd(input, i + 2), sc)
    else if input[i] == ESC && i + 1 < |input| && input[i + 1] == '[' then
      var e := ParamsEnd(input, i + 2);
      (e + 1, Csi(sc, if e < |input| then Some(input[e]) else None, Params(input[i + 2..e])))
    else if input[i] == ESC then
      (if i + 1 < |input| then i + 2 else i + 1, sc)
    else
      (i + 1, Control(sc, input[i]))
  }

  /** The main loop from position `i` to the end of the input. */
  function RunFrom(input: string, i: nat, sc: Screen): Screen
    decreases |input| - i
  {
    if i >= |input| then sc
    else
      var (j, next) := Step(input, i, sc);
      RunFrom(input, j, next)
  }

  /** Pop trailing lines that are exactly "" while more than one line remains. */
  function DropTrailingEmpty(lines: seq<string>): seq<string> {
    if |lines| > 1 && lines[|lines| - 1] == "" then DropTrailingEmpty(lines[..|lines| - 1]) else lines
  }

  function TrimEachEnd(lines: seq<string>): (res: seq<string>)
    ensures |res| == |lines|
    ensures forall k :: 0 <= k < |lines| ==> res[k] == TrimEnd(lines[k])
  {
    if lines == [] then [] else [TrimEnd(lines[0])] + TrimEachEnd(lines[1..])
  }

  /** The text of the final screen. */
  function Finish(lines: seq<string>): string {
    Join(TrimEachEnd(DropTrailingEmpty(lines)), "\n")
  }

  /** `renderTerminal(input)` */
  function Render(input: string): string {
    Finish(RunFrom(input, 0, Initial).lines)
  }

  // The loop, with its helpers, as the source runs it.

  method EnsureRowInPlace(lines: seq<string>, r: nat) returns (res: seq<string>)
    ensures res == EnsureRow(lines, r)
  {
    res := lines;
    while |res| <= r
      invariant |lines| <= |res| <= if r < |lines| then |lines| else r + 1
      invariant res[..|lines|] == lines
      invariant forall k :: |lines| <= k < |res| ==> res[k] == ""
      decreases r + 1 - |res|
    {
      res := res + [""];
    }
  }

  method WriteCharAt(lines: seq<string>, row: nat, col: nat, ch: char) returns (res: seq<string>, col': nat)
    ensures Screen(res, row, col') == WriteChar(Screen(lines, row, col), ch)
  {
    res := EnsureRowInPlace(lines, row);
    var line := res[row];
    if |line| < col {
      line := line + Spaces(col - |line|);
    }
    res := res[row := line[..col] + [ch] + SliceFrom(line, col + 1)];
    col' := col + 1;
  }

  method ApplyControl(lines: seq<string>, row: nat, col: nat, c: char) returns (res: seq<string>, row': nat, col': nat)
    ensures Screen(res, row', col') == Control(Screen(lines, row, col), c)
  {
    res, row', col' := lines, row, col;
    if c == '\r' {
      col' := 0;
    } else if c == '\n' {
      row' := row + 1;
      col' := 0;
      res := EnsureRowInPlace(res, row');
    } else if c == '\t' {
      var stop := TabStop(col);
      while col' < stop
        invariant TabTo(Screen(res, row, col'), stop) == TabTo(Screen(lines, row, col), stop)
        decreases stop - col'
      {
        res, col' := WriteCharAt(res, row, col', ' ');
      }
    } else if c == '\U{08}' {
      col' := Max0(col - 1);
    } else if c as int >= 32 {
      res, col' := WriteCharAt(res, row, col, c);
    }
  }

  method ApplyCsi(lines: seq<string>, row: nat, col: nat, cmd: Option<char>, nums: seq<Option<nat>>)
    returns (res: seq<string>, row': nat, col': nat)
    ensures Screen(res, row', col') == Csi(Screen(lines, row, col), cmd, nums)
  {
    res, row', col' := lines, row, col;
    if cmd == Some('A') {
      row' := Max0(row - Arg(nums, 0, 1));
    } else if cmd == Some('B') {
      row' := row + Arg(nums, 0, 1);
      res := EnsureRowInPlace(res, row');
    } else if cmd == Some('C') {
      col' := col + Arg(nums, 0, 1);
    } else if cmd == Some('D') {
      col' := Max0(col - Arg(nums, 0, 1));
    } else if cmd == Some('H') || cmd == Some('f') {
      row' := Max0(Arg(nums, 0, 1) - 1);
      col' := Max0(Arg(nums, 1, 1) - 1);
      res := EnsureRowInPlace(res, row');
    } else if cmd == Some('J') {
      res := EnsureRowInPlace(res, row);
      ghost var ensured := res;
      var mode := Arg(nums, 0, 0);
      if mode == 0 {
        res := res[row := SliceTo(res[row], col)];
        res := res[..row + 1];
      } else if mode == 1 {
        res := res[row := Spaces(col) + SliceFrom(res[row], col)];
        ghost var written := res;
        for r := 0 to row
          invariant |res| == |written|
          invariant forall k :: 0 <= k < |res| ==> res[k] == if k < r then "" else written[k]
        {
          res := res[r := ""];
        }
        assert res == BlankAbove(written, row);
      } else if mode == 2 || mode == 3 {
        res := [""];
        row', col' := 0, 0;
      }
      assert Screen(res, row', col') == EraseDisplay(Screen(ensured, row, col), mode);
    } else if cmd == Some('K') {
      res := EnsureRowInPlace(res, row);
      res := res[row := EraseLine(res[row], col, Arg(nums, 0, 0))];
    }
  }

  method SkipOsc(input: string, j: nat) returns (e: nat)
    requires j <= |input|
    ensures e == OscEnd(input, j)
  {
    e := j;
    while e < |input|
      invariant j <= e <= |input|
      invariant OscEnd(input, e) == OscEnd(input, j)
      decreases |input| - e
    {
      if input[e] == BEL {
        e := e + 1;
        return;
      }
      if input[e] == ESC && e + 1 < |input| && input[e + 1] == '\\' {
        e := e + 2;
        return;
      }
      e := e + 1;
    }
  }

  method ScanParams(input: string, j: nat) returns (params: string, e: nat)
    requires j <= |input|
    ensures e == ParamsEnd(input, j) && params == input[j..e]
  {
    params, e := "", j;
    while e < |input| && IsParamChar(input[e])
      invariant j <= e <= |input|
      invariant ParamsEnd(input, e) == ParamsEnd(input, j)
      invariant params == input[j..e]
      decreases |input| - e
    {
      params := params + [input[e]];
      e := e + 1;
    }
  }

  /** `renderTerminal`: the replay loop, then the trim of trailing empty lines
      and of trailing white space. */
  method RenderTerminal(input: string) returns (out: string)
    ensures out == Render(input)
  {
    var lines: seq<string> := [""];
    var row: nat, col: nat := 0, 0;
    var i: nat := 0;
    while i < |input|
      invariant RunFrom(input, i, Screen(lines, row, col)) == RunFrom(input, 0, Initial)
      decreases |input| - i
    {
      ghost var before := Screen(lines, row, col);
      ghost var at := i;
      var c := input[i];
      if c == ESC && i + 1 < |input| && input[i + 1] == ']' {
        i := SkipOsc(input, i + 2);
      } else if c == ESC && i + 1 < |input| && input[i + 1] == '[' {
        var params;
        params, i := ScanParams(input, i + 2);
        var cmd := if i < |input| then Some(input[i]) else None;
        i := i + 1;
        lines, row, col := ApplyCsi(lines, row, col, cmd, Params(params));
      } else if c == ESC {
        i := i + 1;
        if i < |input| {
          i := i + 1;
        }
      } else {
        lines, row, col := ApplyControl(lines, row, col, c);
        i := i + 1;
      }
      assert (i, Screen(lines, row, col)) == Step(input, at, before);
    }
    while |lines| > 1 && lines[|lines| - 1] == ""
      invariant DropTrailingEmpty(lines) == DropTrailingEmpty(RunFrom(input, 0, Initial).lines)
    {
      lines := lines[..|lines| - 1];
    }
    out := Join(TrimEachEnd(lines), "\n");
  }
}

module TerminalProperties {
  import opened Wrappers
  import opened JsText
  import opened Terminal

  /** No screen line ever holds a newline: newlines only move the cursor. */
  predicate NoNewlines(sc: Screen) {
    forall r :: 0 <= r < |sc.lines| ==> '\n' !in sc.lines[r]
  }

  /** Writing a character: only the cursor's line changes; on it the cell under
      the cursor holds the character, cells before it that did not exist are
      spaces, every other cell is kept; the cursor moves one cell right. */
  lemma WriteCharCells(sc: Screen, ch: char)
    requires Valid(sc)
    ensures var w := WriteChar(sc, ch);
      && w.row == sc.row && w.col == sc.col + 1
      && |w.lines| == |sc.lines|
      && (forall r :: 0 <= r < |sc.lines| && r != sc.row ==> w.lines[r] == sc.lines[r])
      && var before, after := sc.lines[sc.row], w.lines[sc.row];
      && |after| == (if sc.col < |before| then |before| else sc.col + 1)
      && after[sc.col] == ch
      && forall k :: 0 <= k < |after| && k != sc.col ==> after[k] == if k < |before| then before[k] else ' '
  {
  }

  /** The tab loop fills the cells from the cursor up to `stop` with spaces
      and leaves the cursor at `stop`; nothing else changes. */
  lemma {:induction false} TabToCells(sc: Screen, stop: nat)
    requires Valid(sc) && sc.col < stop
    ensures var t := TabTo(sc, stop);
      && t.row == sc.row && t.col == stop
      && |t.lines| == |sc.lines|
      && (forall r :: 0 <= r < |sc.lines| && r != sc.row ==> t.lines[r] == sc.lines[r])
      && var before, after := sc.lines[sc.row], t.lines[sc.row];
      && |after| == (if stop <= |before| then |before| else stop)
      && forall k :: 0 <= k < |after| ==> after[k] == if sc.col <= k < stop || |before| <= k then ' ' else before[k]
    decreases stop - sc.col
  {
    var w := WriteChar(sc, ' ');
    WriteCharCells(sc, ' ');
    if w.col < stop {
      TabToCells(w, stop);
      var t := TabTo(sc, stop);
      assert t == TabTo(w, stop);
      var before, mid, after := sc.lines[sc.row], w.lines[sc.row], t.lines[sc.row];
      assert |after| == (if stop <= |before| then |before| else stop);
      forall k | 0 <= k < |after|
        ensures after[k] == if sc.col <= k < stop || |before| <= k then ' ' else before[k]
      {
        if k == sc.col {
          assert after[k] == mid[k];
        } else if k < sc.col {
          assert after[k] == mid[k];
        }
      }
    }
  }

  /** A tab moves the cursor to the next multiple of 8, writing spaces over
      the cells it passes. */
  lemma TabAdvances(input: string, i: nat, sc: Screen)
    requires i < |input| && input[i] == '\t' && Valid(sc)
    ensures var (j, t) := Step(input, i, sc);
      && j == i + 1 && t.row == sc.row
      && t.col % 8 == 0 && sc.col < t.col <= sc.col + 8
      && |t.lines| == |sc.lines|
      && (forall r :: 0 <= r < |sc.lines| && r != sc.row ==> t.lines[r] == sc.lines[r])
      && var before, after := sc.lines[sc.row], t.lines[sc.row];
      && |after| == (if t.col <= |before| then |before| else t.col)
      && forall k :: 0 <= k < |after| ==> after[k] == if sc.col <= k < t.col || |before| <= k then ' ' else before[k]
  {
    TabToCells(sc, TabStop(sc.col));
  }

  /** A printable character (code 32 and above) overwrites the cell under the
      cursor and advances the cursor by one. */
  lemma PrintableOverwrites(input: string, i: nat, sc: Screen)
    requires i < |input| && input[i] as int >= 32 && Valid(sc)
    ensures var (j, w) := Step(input, i, sc);
      && j == i + 1
      && w.row == sc.row && w.col == sc.col + 1
      && |w.lines| == |sc.lines|
      && (forall r :: 0 <= r < |sc.lines| && r != sc.row ==> w.lines[r] == sc.lines[r])
      && var before, after := sc.lines[sc.row], w.lines[sc.row];
      && |after| == (if sc.col < |before| then |before| else sc.col + 1)
      && after[sc.col] == input[i]
      && forall k :: 0 <= k < |after| && k != sc.col ==> after[k] == if k < |before| then before[k] else ' '
  {
    WriteCharCells(sc, input[i]);
  }

  /** Carriage return, newline and backspace only move the cursor (a newline
      adds a line when the cursor was on the last one). */
  lemma CursorControls(input: string, i: nat, sc: Screen)
    requires i < |input| && Valid(sc)
    ensures input[i] == '\r' ==> Step(input, i, sc) == (i + 1, sc.(col := 0))
    ensures input[i] == '\U{08}' ==> Step(input, i, sc) == (i + 1, sc.(col := if sc.col == 0 then 0 else sc.col - 1))
    ensures input[i] == '\n' ==>
      var (j, t) := Step(input, i, sc);
      && j == i + 1 && t.row == sc.row + 1 && t.col == 0
      && t.lines == (if sc.row + 1 < |sc.lines| then sc.lines else sc.lines + [""])
  {
  }

  /** Other control characters (below 32) are dropped. */
  lemma OtherControlsIgnored(input: string, i: nat, sc: Screen)
    requires i < |input| && input[i] as int < 32
    requires input[i] !in {ESC, '\r', '\n', '\t', '\U{08}'}
    ensures Step(input, i, sc) == (i + 1, sc)
  {
  }

  predicate Good(sc: Screen) {
    Valid(sc) && NoNewlines(sc)
  }

  lemma NoNewlineInSlices(line: string, n: nat)
    requires '\n' !in line
    ensures '\n' !in SliceTo(line, n) && '\n' !in SliceFrom(line, n)
    ensures '\n' !in Spaces(n) && '\n' !in TrimEnd(line)
  {
    if n <= |line| {
      assert forall c :: c in line[n..] ==> c in line;
    }
    assert forall c :: c in TrimEnd(line) ==> c in line;
  }

  lemma EnsureRowGood(lines: seq<string>, r: nat)
    requires forall k :: 0 <= k < |lines| ==> '\n' !in lines[k]
    ensures forall k :: 0 <= k < |EnsureRow(lines, r)| ==> '\n' !in EnsureRow(lines, r)[k]
  {
    var e := EnsureRow(lines, r);
    forall k | 0 <= k < |e| ensures '\n' !in e[k] {
      if k < |lines| {
        assert e[k] == e[..|lines|][k];
      }
    }
  }

  lemma WriteCharGood(sc: Screen, ch: char)
    requires Good(sc) && ch != '\n'
    ensures Good(WriteChar(sc, ch))
  {
    WriteCharCells(sc, ch);
    var w := WriteChar(sc, ch);
    var after := w.lines[sc.row];
    forall k | 0 <= k < |after| ensures after[k] != '\n' {
      if k != sc.col && k < |sc.lines[sc.row]| {
        assert sc.lines[sc.row][k] in sc.lines[sc.row];
      }
    }
  }

  lemma {:induction false} TabToGood(sc: Screen, stop: nat)
    requires Good(sc)
    ensures Good(TabTo(sc, stop))
    decreases stop - sc.col
  {
    if sc.col < stop {
      WriteCharGood(sc, ' ');
      TabToGood(WriteChar(sc, ' '), stop);
    }
  }

  lemma EraseGood(line: string, col: nat, mode: nat)
    requires '\n' !in line
    ensures '\n' !in EraseLine(line, col, mode)
    ensures '\n' !in Spaces(col) + SliceFrom(line, col)
  {
    NoNewlineInSlices(line, col);
    assert forall c :: c in Spaces(col) + SliceFrom(line, col) ==> c in Spaces(col) || c in SliceFrom(line, col);
  }

  lemma EraseDisplayGood(sc: Screen, mode: nat)
    requires Good(sc)
    ensures Good(EraseDisplay(sc, mode))
  {
    var line := sc.lines[sc.row];
    EraseGood(line, sc.col, 1);
    NoNewlineInSlices(line, sc.col);
    if mode == 0 {
      var ls := sc.lines[sc.row := SliceTo(line, sc.col)];
      assert forall k :: 0 <= k <= sc.row ==> ls[..sc.row + 1][k] == ls[k];
    }
  }

  lemma CsiGood(sc: Screen, cmd: Option<char>, nums: seq<Option<nat>>)
    requires Good(sc)
    ensures Good(Csi(sc, cmd, nums))
  {
    EnsureRowGood(sc.lines, sc.row);
    if cmd == Some('B') {
      EnsureRowGood(sc.lines, sc.row + Arg(nums, 0, 1));
    } else if cmd == Some('H') || cmd == Some('f') {
      EnsureRowGood(sc.lines, Max0(Arg(nums, 0, 1) - 1));
    } else if cmd == Some('J') {
      EraseDisplayGood(sc.(lines := EnsureRow(sc.lines, sc.row)), Arg(nums, 0, 0));
    } else if cmd == Some('K') {
      EraseGood(EnsureRow(sc.lines, sc.row)[sc.row], sc.col, Arg(nums, 0, 0));
    }
  }

  lemma ControlGood(sc: Screen, c: char)
    requires Good(sc)
    ensures Good(Control(sc, c))
  {
    EnsureRowGood(sc.lines, sc.row + 1);
    if c == '\t' {
      TabToGood(sc, TabStop(sc.col));
    } else if c as int >= 32 {
      WriteCharGood(sc, c);
    }
  }

  /** Every step keeps a cursor row that exists and lines free of newlines. */
  lemma StepGood(input: string, i: nat, sc: Screen)
    requires i < |input| && Good(sc)
    ensures Good(Step(input, i, sc).1)
  {
    if input[i] == ESC && i + 1 < |input| && input[i + 1] == '[' {
      var e := ParamsEnd(input, i + 2);
      CsiGood(sc, if e < |input| then Some(input[e]) else None, Params(input[i + 2..e]));
    } else if input[i] != ESC {
      ControlGood(sc, input[i]);
    }
  }

  lemma {:induction false} RunGood(input: string, i: nat, sc: Screen)
    requires Good(sc)
    ensures Good(RunFrom(input, i, sc))
    decreases |input| - i
  {
    if i < |input| {
      StepGood(input, i, sc);
      RunGood(input, Step(input, i, sc).0, Step(input, i, sc).1);
    }
  }

  /** What trailing-line removal keeps: a non-empty prefix, after which only
      empty lines were dropped, and which ends in a non-empty line unless
      only one line is left. */
  lemma {:induction false} DropTrailingEmptyShape(lines: seq<string>)
    requires |lines| >= 1
    ensures var d := DropTrailingEmpty(lines);
      && 1 <= |d| <= |lines| && d == lines[..|d|]
      && (forall k :: |d| <= k < |lines| ==> lines[k] == "")
      && (|d| == 1 || d[|d| - 1] != "")
  {
    if |lines| > 1 && lines[|lines| - 1] == "" {
      var shorter := lines[..|lines| - 1];
      DropTrailingEmptyShape(shorter);
      var d := DropTrailingEmpty(shorter);
      assert d == shorter[..|d|] == lines[..|d|];
      forall k | |d| <= k < |lines| ensures lines[k] == "" {
        if k < |lines| - 1 {
          assert lines[k] == shorter[k];
        }
      }
    }
  }

  /** The rendered text is the kept screen lines, each right-trimmed, one per
      line: splitting it on newlines gives them back. */
  lemma RenderLines(input: string)
    ensures var sc := RunFrom(input, 0, Initial);
      var kept := DropTrailingEmpty(sc.lines);
      && 1 <= |kept| <= |sc.lines| && kept == sc.lines[..|kept|]
      && (forall k :: |kept| <= k < |sc.lines| ==> sc.lines[k] == "")
      && (|kept| == 1 || kept[|kept| - 1] != "")
      && Split(Render(input), '\n') == TrimEachEnd(kept)
  {
    var sc := RunFrom(input, 0, Initial);
    RunGood(input, 0, Initial);
    FinishShape(sc.lines);
  }

  /** The end of the replay on lines without newlines. */
  lemma FinishShape(lines: seq<string>)
    requires |lines| >= 1
    requires forall r :: 0 <= r < |lines| ==> '\n' !in lines[r]
    ensures var kept := DropTrailingEmpty(lines);
      && 1 <= |kept| <= |lines| && kept == lines[..|kept|]
      && (forall k :: |kept| <= k < |lines| ==> lines[k] == "")
      && (|kept| == 1 || kept[|kept| - 1] != "")
      && Split(Finish(lines), '\n') == TrimEachEnd(kept)
  {
    DropTrailingEmptyShape(lines);
    var kept := DropTrailingEmpty(lines);
    assert forall k :: 0 <= k < |kept| ==> '\n' !in kept[k] by {
      forall k | 0 <= k < |kept| ensures '\n' !in kept[k] {
        assert kept[k] == lines[k];
      }
    }
    SplitTrimmed(kept);
  }

  /** Right-trimmed lines without newlines, joined by newlines, split back. */
  lemma SplitTrimmed(kept: seq<string>)
    requires |kept| >= 1
    requires forall k :: 0 <= k < |kept| ==> '\n' !in kept[k]
    ensures Split(Join(TrimEachEnd(kept), "\n"), '\n') == TrimEachEnd(kept)
  {
    var out := TrimEachEnd(kept);
    forall p | p in out ensures '\n' !in p {
      var k :| 0 <= k < |out| && out[k] == p;
      NoNewlineInSlices(kept[k], 0);
    }
    SplitJoin(out, '\n');
  }

  // Control sequences

  /** How a parameter is written: absent, or as a decimal numeral. */
  function Numeral(n: Option<nat>): (s: string)
    ensures forall k :: 0 <= k < |s| ==> IsDigit(s[k])
  {
    match n
    case None => ""
    case Some(v) => NatToString(v)
  }

  lemma NumeralPiece(n: Option<nat>)
    ensures ';' !in Numeral(n)
    ensures forall k :: 0 <= k < |Numeral(n)| ==> IsParamChar(Numeral(n)[k])
    ensures PieceValues([Numeral(n)]) == [n]
  {
    if n.Some? {
      NatToStringValue(n.value);
    }
  }

  /** A single parameter is read back as the number it was written from; no
      parameter at all gives an empty list. */
  lemma ParamsOfOne(n: Option<nat>)
    ensures Params(Numeral(n)) == if n.None? then [] else [n]
  {
    NumeralPiece(n);
    SplitOfPiece(Numeral(n), ';');
  }

  /** Two `;`-separated parameters are read back as written, an empty one as absent. */
  lemma ParamsOfTwo(a: Option<nat>, b: Option<nat>)
    ensures Params(Numeral(a) + ";" + Numeral(b)) == [a, b]
  {
    var p := Numeral(a) + ";" + Numeral(b);
    var pieces := [Numeral(a), Numeral(b)];
    NumeralPiece(a);
    NumeralPiece(b);
    assert Join(pieces, [';']) == p;
    SplitJoin(pieces, ';');
    assert p[|Numeral(a)|] == ';';
    assert Params(p) == PieceValues(pieces);
    assert pieces[1..] == [Numeral(b)];
  }

  /** Cursor up, down, forward and back move by the parameter, by 1 when it
      is absent, and by nothing when it is an explicit 0; up and back stop at
      0; down adds the lines it needs. */
  lemma CursorMoves(sc: Screen, n: Option<nat>)
    ensures var d, nums := n.GetOr(1), Params(Numeral(n));
      && Csi(sc, Some('A'), nums) == sc.(row := if sc.row < d then 0 else sc.row - d)
      && Csi(sc, Some('B'), nums) == Screen(EnsureRow(sc.lines, sc.row + d), sc.row + d, sc.col)
      && Csi(sc, Some('C'), nums) == sc.(col := sc.col + d)
      && Csi(sc, Some('D'), nums) == sc.(col := if sc.col < d then 0 else sc.col - d)
  {
    ParamsOfOne(n);
  }

  /** An explicit 0 does not move the cursor. */
  lemma ExplicitZeroStays(sc: Screen)
    ensures forall cmd :: cmd in "ACD" ==> Csi(sc, Some(cmd), Params("0")) == sc
  {
    assert Numeral(Some(0)) == "0";
    CursorMoves(sc, Some(0));
  }

  /** Cursor position (H or f) takes 1-based row and column, each defaulting
      to 1, and clamps them to the top-left corner. */
  lemma CursorPosition(sc: Screen, r: Option<nat>, c: Option<nat>)
    ensures forall cmd :: cmd in "Hf" ==>
      var moved := Csi(sc, Some(cmd), Params(Numeral(r) + ";" + Numeral(c)));
      && moved.row == (if r.GetOr(1) == 0 then 0 else r.GetOr(1) - 1)
      && moved.col == (if c.GetOr(1) == 0 then 0 else c.GetOr(1) - 1)
      && moved.lines == EnsureRow(sc.lines, moved.row)
    ensures forall cmd :: cmd in "Hf" ==> Csi(sc, Some(cmd), Params("")) == Screen(EnsureRow(sc.lines, 0), 0, 0)
  {
    ParamsOfTwo(r, c);
  }

  /** Erase in line: mode 0 (the default) cuts the line at the cursor, mode 1
      blanks the cells before the cursor, mode 2 empties the line; nothing
      else changes and the cursor stays. */
  lemma EraseInLine(sc: Screen, m: Option<nat>)
    requires Valid(sc)
    ensures var k := Csi(sc, Some('K'), Params(Numeral(m)));
      var before, after := sc.lines[sc.row], k.lines[sc.row];
      && k.row == sc.row && k.col == sc.col && |k.lines| == |sc.lines|
      && (forall r :: 0 <= r < |sc.lines| && r != sc.row ==> k.lines[r] == sc.lines[r])
      && (m.GetOr(0) == 0 ==> after == before[..if sc.col < |before| then sc.col else |before|])
      && (m.GetOr(0) == 1 ==>
            && |after| == (if sc.col < |before| then |before| else sc.col)
            && forall j :: 0 <= j < |after| ==> after[j] == if j < sc.col then ' ' else before[j])
      && (m.GetOr(0) == 2 ==> after == "")
  {
    ParamsOfOne(m);
  }

  /** Erase in display: mode 0 (the default) cuts the cursor's line at the
      cursor and drops the lines below; mode 1 empties the lines above and
      blanks the cells before the cursor; modes 2 and 3 reset the screen. */
  lemma EraseInDisplay(sc: Screen, m: Option<nat>)
    requires Valid(sc)
    ensures var e := Csi(sc, Some('J'), Params(Numeral(m)));
      var before := sc.lines[sc.row];
      && (m.GetOr(0) == 0 ==>
            && e.row == sc.row && e.col == sc.col && |e.lines| == sc.row + 1
            && (forall r :: 0 <= r < sc.row ==> e.lines[r] == sc.lines[r])
            && e.lines[sc.row] == before[..if sc.col < |before| then sc.col else |before|])
      && (m.GetOr(0) == 1 ==>
            && e.row == sc.row && e.col == sc.col && |e.lines| == |sc.lines|
            && (forall r :: 0 <= r < sc.row ==> e.lines[r] == "")
            && (forall r :: sc.row < r < |sc.lines| ==> e.lines[r] == sc.lines[r])
            && |e.lines[sc.row]| == (if sc.col < |before| then |before| else sc.col)
            && forall j :: 0 <= j < |e.lines[sc.row]| ==> e.lines[sc.row][j] == if j < sc.col then ' ' else before[j])
      && (m.GetOr(0) in {2, 3} ==> e == Screen([""], 0, 0))
  {
    ParamsOfOne(m);
  }

  /** Mode 3 (erase scroll-back) is treated exactly like mode 2. */
  lemma EraseScrollbackAsFull(sc: Screen)
    ensures Csi(sc, Some('J'), Params("3")) == Csi(sc, Some('J'), Params("2")) == Initial
  {
    assert Numeral(Some(3)) == "3" && Numeral(Some(2)) == "2";
    ParamsOfOne(Some(3));
    ParamsOfOne(Some(2));
  }

  /** Select graphic rendition, every other final byte, and a sequence cut
      off by the end of the input leave the screen as it was. */
  lemma OtherSequencesIgnored(sc: Screen, cmd: Option<char>, nums: seq<Option<nat>>)
    requires cmd.None? || cmd.value !in "ABCDHfJK"
    ensures Csi(sc, cmd, nums) == sc
  {
  }

  // How the input is cut into steps

  /** `ESC [`, a run of parameter characters and a final byte make one step
      that applies the sequence to the screen. */
  lemma StepCsi(input: string, i: nat, p: string, sc: Screen)
    requires i + 2 + |p| < |input|
    requires input[i] == ESC && input[i + 1] == '[' && input[i + 2..i + 2 + |p|] == p
    requires forall k :: 0 <= k < |p| ==> IsParamChar(p[k])
    requires !IsParamChar(input[i + 2 + |p|])
    ensures Step(input, i, sc) == (i + 3 + |p|, Csi(sc, Some(input[i + 2 + |p|]), Params(p)))
  {
    var e := i + 2 + |p|;
    forall k | i + 2 <= k < e
      ensures IsParamChar(input[k])
    {
      assert input[k] == p[k - (i + 2)];
    }
    ParamsEndAt(input, i + 2, e);
    assert input[i + 2..e] == p;
  }

  /** The run of parameter characters from `j` ends at the first other character. */
  lemma {:induction false} ParamsEndAt(input: string, j: nat, e: nat)
    requires j <= e < |input|
    requires forall k :: j <= k < e ==> IsParamChar(input[k])
    requires !IsParamChar(input[e])
    ensures ParamsEnd(input, j) == e
    decreases e - j
  {
    if j < e {
      ParamsEndAt(input, j + 1, e);
    }
  }

  /** An OSC string `ESC ] ... BEL` or `ESC ] ... ESC \` is skipped whole; an
      unterminated one runs to the end of the input. Nothing is drawn. */
  lemma StepOsc(input: string, i: nat, t: nat, sc: Screen)
    requires i + 2 <= t <= |input|
    requires input[i] == ESC && input[i + 1] == ']'
    requires forall k :: i + 2 <= k < t ==> input[k] != BEL && input[k] != ESC
    ensures t < |input| && input[t] == BEL ==> Step(input, i, sc) == (t + 1, sc)
    ensures t + 1 < |input| && input[t] == ESC && input[t + 1] == '\\' ==> Step(input, i, sc) == (t + 2, sc)
    ensures t == |input| ==> Step(input, i, sc) == (|input|, sc)
  {
    OscSkips(input, i + 2, t);
  }

  lemma {:induction false} OscSkips(input: string, j: nat, t: nat)
    requires j <= t <= |input|
    requires forall k :: j <= k < t ==> input[k] != BEL && input[k] != ESC
    ensures OscEnd(input, j) == OscEnd(input, t)
    decreases t - j
  {
    if j < t {
      OscSkips(input, j + 1, t);
    }
  }

  /** Any other escape drops ESC and the character after it, if there is one. */
  lemma StepOtherEscape(input: string, i: nat, sc: Screen)
    requires i < |input| && input[i] == ESC
    requires i + 1 < |input| ==> input[i + 1] !in "[]"
    ensures Step(input, i, sc) == (if i + 1 < |input| then i + 2 else i + 1, sc)
  {
  }

  // Worked inputs

  /** A line holding only a space survives the trailing-line removal (it is
      not ""), and is emptied only afterwards by the right trim; so rendering
      the output again removes one more line: the renderer is not idempotent. */
  lemma NotIdempotent(s: string, t: string)
    requires s == "a\n " && t == "a\n"
    ensures Render(s) == t && Render(t) == "a"
  {
    var s1 := Screen(["a"], 0, 1);
    var s2 := Screen(["a", ""], 1, 0);
    var s3 := Screen(["a", " "], 1, 1);
    WriteCharCells(Initial, 'a');
    var w1 := WriteChar(Initial, 'a');
    assert w1.lines[0] == "a";
    assert w1.lines == ["a"];
    WriteCharCells(s2, ' ');
    var w3 := WriteChar(s2, ' ');
    assert w3.lines[1] == " ";
    assert w3.lines == ["a", " "];
    assert EnsureRow(s1.lines, 1) == s2.lines;
    calc {
      RunFrom(s, 0, Initial);
      { assert s[0] == 'a'; PrintableOverwrites(s, 0, Initial); }
      RunFrom(s, 1, s1);
      { assert s[1] == '\n'; CursorControls(s, 1, s1); }
      RunFrom(s, 2, s2);
      { assert s[2] == ' '; PrintableOverwrites(s, 2, s2); }
      RunFrom(s, 3, s3);
      s3;
    }
    calc {
      RunFrom(t, 0, Initial);
      { assert t[0] == 'a'; PrintableOverwrites(t, 0, Initial); }
      RunFrom(t, 1, s1);
      { assert t[1] == '\n'; CursorControls(t, 1, s1); }
      RunFrom(t, 2, s2);
      s2;
    }
    assert DropTrailingEmpty(s3.lines) == s3.lines;
    assert TrimEnd(" ") == "";
    assert TrimEachEnd(s3.lines) == ["a", ""];
    assert DropTrailingEmpty(s2.lines) == ["a"];
  }

  /** A carriage return lets later characters overwrite the start of the line. */
  lemma CarriageReturnOverwrites(s: string)
    requires s == "ab\rc"
    ensures Render(s) == "cb"
  {
    var s1, s2, s3, s4 := Screen(["a"], 0, 1), Screen(["ab"], 0, 2), Screen(["ab"], 0, 0), Screen(["cb"], 0, 1);
    WriteCharCells(Initial, 'a');
    var w := WriteChar(Initial, 'a');
    assert w.lines[0] == "a" && w.lines == ["a"];
    WriteCharCells(s1, 'b');
    w := WriteChar(s1, 'b');
    assert w.lines[0] == "ab" && w.lines == ["ab"];
    WriteCharCells(s3, 'c');
    w := WriteChar(s3, 'c');
    assert w.lines[0] == "cb" && w.lines == ["cb"];
    calc {
      RunFrom(s, 0, Initial);
      { assert s[0] == 'a'; PrintableOverwrites(s, 0, Initial); }
      RunFrom(s, 1, s1);
      { assert s[1] == 'b'; PrintableOverwrites(s, 1, s1); }
      RunFrom(s, 2, s2);
      { assert s[2] == '\r'; CursorControls(s, 2, s2); }
      RunFrom(s, 3, s3);
      { assert s[3] == 'c'; PrintableOverwrites(s, 3, s3); }
      RunFrom(s, 4, s4);
      s4;
    }
    assert TrimEnd("cb") == "cb";
  }

  /** A tab after one character pads with spaces up to column 8. */
  lemma TabPadsToColumnEight(s: string)
    requires s == "a\tb"
    ensures Render(s) == "a       b"
  {
    var s1, s2, s3 := Screen(["a"], 0, 1), Screen(["a       "], 0, 8), Screen(["a       b"], 0, 9);
    TabAfterOneColumn(s);
    calc {
      RunFrom(s, 0, Initial);
      { WriteOnEmpty(s, 'a'); }
      RunFrom(s, 1, s1);
      RunFrom(s, 2, s2);
      { WriteAfterPadding(s); }
      RunFrom(s, 3, s3);
      s3;
    }
    assert TrimEnd("a       b") == "a       b";
  }

  /** The first character of an input lands on the empty screen. */
  lemma WriteOnEmpty(s: string, c: char)
    requires |s| >= 1 && s[0] == c && c as int >= 32
    ensures Step(s, 0, Initial) == (1, Screen([[c]], 0, 1))
  {
    PrintableOverwrites(s, 0, Initial);
    var w := Step(s, 0, Initial).1;
    assert w.lines[0] == [c] && w.lines == [[c]];
  }

  lemma TabAfterOneColumn(s: string)
    requires s == "a\tb"
    ensures Step(s, 1, Screen(["a"], 0, 1)) == (2, Screen(["a       "], 0, 8))
  {
    TabAdvances(s, 1, Screen(["a"], 0, 1));
    var t := Step(s, 1, Screen(["a"], 0, 1)).1;
    assert t.lines[0] == "a       " && t.lines == ["a       "];
  }

  lemma WriteAfterPadding(s: string)
    requires s == "a\tb"
    ensures Step(s, 2, Screen(["a       "], 0, 8)) == (3, Screen(["a       b"], 0, 9))
  {
    PrintableOverwrites(s, 2, Screen(["a       "], 0, 8));
    var w := Step(s, 2, Screen(["a       "], 0, 8)).1;
    assert w.lines[0] == "a       b" && w.lines == ["a       b"];
  }
}
