/** The bookkeeping of the prompt input
    (packages/opencode/src/cli/cmd/tui/component/prompt/index.tsx): the prompt
    text, its parts (pasted text shown as a short placeholder, attached files
    and images, agent mentions), and the map from the editor's extmarks (the
    highlighted ranges that stand for the parts) to positions in the parts
    list.

    The text area, its extmark store and the SDK client are not modelled: the
    extmarks the editor reports, the fresh extmark ids it hands out and the
    slash commands the server knows are inputs of the methods below. */
module Prompt {
  import opened Wrappers
  import opened JsText

  datatype PartKind = TextPart | FilePart | AgentPart

  /** Where a part's virtual text sits in the input: `[start, end)` and the text. */
  datatype Span = Span(start: nat, end: nat, value: string)

  /** A prompt part. For pasted text `text` is the full pasted content; for a
      file it is the file's url; agent mentions leave it empty. */
  datatype Part = Part(kind: PartKind, text: string, source: Option<Span>)

  /** An extmark as the editor reports it. */
  datatype Extmark = Extmark(id: nat, start: nat, end: nat)

  /** The virtual text of a part, empty when it has none. */
  function Virtual(p: Part): string {
    if p.source.Some? then p.source.value.value else ""
  }

  /** The part with its span moved to the extmark's range. */
  function Moved(p: Part, m: Extmark): (q: Part)
    ensures q.kind == p.kind && q.text == p.text && Virtual(q) == Virtual(p)
    ensures p.source.Some? ==> q.source == Some(Span(m.start, m.end, p.source.value.value))
    ensures p.source.None? ==> q == p
  {
    if p.source.Some? then p.(source := Some(p.source.value.(start := m.start, end := m.end))) else p
  }

  // Submitting

  /** `exit`, `quit` and `:q`, around any whitespace, leave the application. */
  predicate IsExitWord(input: string) {
    var t := Trim(input);
    t == "exit" || t == "quit" || t == ":q"
  }

  predicate Descending(ms: seq<Extmark>) {
    forall i, j :: 0 <= i < j < |ms| ==> ms[i].start >= ms[j].start
  }

  /** Insertion before the first mark that starts no later. */
  function InsertByStart(m: Extmark, ms: seq<Extmark>): (r: seq<Extmark>)
    ensures multiset(r) == multiset(ms) + multiset{m}
  {
    if ms == [] || ms[0].start <= m.start then [m] + ms
    else
      assert ms == [ms[0]] + ms[1..];
      [ms[0]] + InsertByStart(m, ms[1..])
  }

  lemma {:induction false} InsertSorted(m: Extmark, ms: seq<Extmark>)
    requires Descending(ms)
    ensures Descending(InsertByStart(m, ms))
  {
    if ms != [] && ms[0].start > m.start {
      var rest := InsertByStart(m, ms[1..]);
      InsertSorted(m, ms[1..]);
      forall k | 0 <= k < |rest|
        ensures ms[0].start >= rest[k].start
      {
        assert rest[k] in multiset(rest);
        if rest[k] != m {
          assert rest[k] in multiset(ms[1..]);
          var j :| 0 <= j < |ms[1..]| && ms[1..][j] == rest[k];
          assert ms[j + 1] == rest[k];
        }
      }
      assert InsertByStart(m, ms) == [ms[0]] + rest;
    }
  }

  /** The extmarks sorted by decreasing start; the sort is stable, so marks
      with the same start keep their order. */
  function SortByStartDesc(ms: seq<Extmark>): (r: seq<Extmark>)
    ensures Descending(r)
    ensures multiset(r) == multiset(ms)
  {
    if ms == [] then []
    else
      var rest := SortByStartDesc(ms[1..]);
      InsertSorted(ms[0], rest);
      MultisetCons(ms);
      InsertByStart(ms[0], rest)
  }

  lemma MultisetCons(ms: seq<Extmark>)
    requires ms != []
    ensures multiset(ms) == multiset(ms[1..]) + multiset{ms[0]}
  {
    assert ms == [ms[0]] + ms[1..];
  }

  function StartingAt(ms: seq<Extmark>, s: nat): seq<Extmark> {
    if ms == [] then []
    else (if ms[0].start == s then [ms[0]] else []) + StartingAt(ms[1..], s)
  }

  lemma {:induction false} InsertStartingAt(m: Extmark, ms: seq<Extmark>, s: nat)
    ensures StartingAt(InsertByStart(m, ms), s) == (if m.start == s then [m] else []) + StartingAt(ms, s)
  {
    if ms == [] || ms[0].start <= m.start {
      assert ([m] + ms)[1..] == ms;
    } else {
      InsertStartingAt(m, ms[1..], s);
      assert ([ms[0]] + InsertByStart(m, ms[1..]))[1..] == InsertByStart(m, ms[1..]);
    }
  }

  /** The sort is stable: marks with the same start keep their relative order. */
  lemma {:induction false} SortStable(ms: seq<Extmark>, s: nat)
    ensures StartingAt(SortByStartDesc(ms), s) == StartingAt(ms, s)
  {
    if ms != [] {
      SortStable(ms[1..], s);
      InsertStartingAt(ms[0], SortByStartDesc(ms[1..]), s);
    }
  }

  /** The pasted text an extmark stands for: the mark is mapped, its index is
      in range, and the part there is a text part with non-empty text. */
  function Replacement(m: Extmark, index: map<nat, nat>, parts: seq<Part>): Option<string> {
    if m.id in index && index[m.id] < |parts| && parts[index[m.id]].kind == TextPart && parts[index[m.id]].text != ""
    then Some(parts[index[m.id]].text)
    else None
  }

  /** One step of the inline expansion: `before + part.text + after`. */
  function ExpandOne(text: string, m: Extmark, index: map<nat, nat>, parts: seq<Part>): string {
    match Replacement(m, index, parts)
    case Some(t) => SliceTo(text, m.start) + t + SliceFrom(text, m.end)
    case None => text
  }

  /** The expansion of the marks in the given order. */
  function ExpandAll(text: string, marks: seq<Extmark>, index: map<nat, nat>, parts: seq<Part>): string
    decreases |marks|
  {
    if marks == [] then text else ExpandAll(ExpandOne(text, marks[0], index, parts), marks[1..], index, parts)
  }

  /** The marks lie inside the first `n` characters, each one entirely before
      the one listed just ahead of it. */
  predicate Chained(n: nat, marks: seq<Extmark>) {
    && (marks != [] ==> marks[0].end <= n)
    && (forall k :: 0 <= k < |marks| ==> marks[k].start <= marks[k].end)
    && (forall k :: 0 < k < |marks| ==> marks[k].end <= marks[k - 1].start)
  }

  /** The intended result, defined without any offsets shifting: the text cut
      at every mark, each mapped pasted part standing in for its placeholder. */
  function Splice(text: string, marks: seq<Extmark>, index: map<nat, nat>, parts: seq<Part>): string
    requires Chained(|text|, marks)
    decreases |marks|
  {
    if marks == [] then text
    else
      var m := marks[0];
      Splice(text[..m.start], marks[1..], index, parts) + Middle(text, m, index, parts) + text[m.end..]
  }

  /** What stands where the mark was: the pasted text, or the placeholder. */
  function Middle(text: string, m: Extmark, index: map<nat, nat>, parts: seq<Part>): string
    requires m.start <= m.end <= |text|
  {
    match Replacement(m, index, parts) case Some(t) => t case None => text[m.start..m.end]
  }

  lemma {:induction false} ExpandAppend(p: string, s: string, marks: seq<Extmark>, index: map<nat, nat>, parts: seq<Part>)
    requires Chained(|p|, marks)
    ensures ExpandAll(p + s, marks, index, parts) == ExpandAll(p, marks, index, parts) + s
    decreases |marks|
  {
    if marks != [] {
      var m := marks[0];
      var p' := ExpandOne(p, m, index, parts);
      assert ExpandOne(p + s, m, index, parts) == p' + s by {
        if Replacement(m, index, parts).Some? {
          assert SliceTo(p + s, m.start) == SliceTo(p, m.start);
          assert SliceFrom(p + s, m.end) == SliceFrom(p, m.end) + s;
        }
      }
      assert Chained(|p'|, marks[1..]);
      ExpandAppend(p', s, marks[1..], index, parts);
    }
  }

  /** Expanding the marks from the last one to the first, as submitting does,
      replaces each placeholder by its pasted text without disturbing the
      offsets of the marks still to come. */
  lemma {:induction false} ExpandIsSplice(text: string, marks: seq<Extmark>, index: map<nat, nat>, parts: seq<Part>)
    requires Chained(|text|, marks)
    ensures ExpandAll(text, marks, index, parts) == Splice(text, marks, index, parts)
    decreases |marks|
  {
    if marks != [] {
      var m := marks[0];
      var head := text[..m.start];
      var tail := Middle(text, m, index, parts) + text[m.end..];
      ExpandOneCut(text, m, index, parts);
      ChainedTail(text, marks);
      ExpandAppend(head, tail, marks[1..], index, parts);
      ExpandIsSplice(head, marks[1..], index, parts);
      SpliceCons(text, marks, index, parts);
    }
  }

  lemma ChainedTail(text: string, marks: seq<Extmark>)
    requires Chained(|text|, marks) && marks != []
    ensures marks[0].start <= marks[0].end <= |text|
    ensures Chained(|text[..marks[0].start]|, marks[1..])
  {
  }

  lemma SpliceCons(text: string, marks: seq<Extmark>, index: map<nat, nat>, parts: seq<Part>)
    requires Chained(|text|, marks) && marks != []
    ensures var m := marks[0];
      Splice(text, marks, index, parts)
        == Splice(text[..m.start], marks[1..], index, parts) + (Middle(text, m, index, parts) + text[m.end..])
  {
  }

  /** One expansion step cuts the text around the mark. */
  lemma ExpandOneCut(text: string, m: Extmark, index: map<nat, nat>, parts: seq<Part>)
    requires m.start <= m.end <= |text|
    ensures ExpandOne(text, m, index, parts) == text[..m.start] + (Middle(text, m, index, parts) + text[m.end..])
  {
    assert text == text[..m.start] + text[m.start..m.end] + text[m.end..];
  }

  /** Marks that stand for no pasted text leave the input as it is. */
  lemma {:induction false} ExpandWithoutReplacements(text: string, marks: seq<Extmark>, index: map<nat, nat>, parts: seq<Part>)
    requires forall k :: 0 <= k < |marks| ==> Replacement(marks[k], index, parts).None?
    ensures ExpandAll(text, marks, index, parts) == text
    decreases |marks|
  {
    if marks != [] {
      assert Replacement(marks[0], index, parts).None?;
      ExpandWithoutReplacements(text, marks[1..], index, parts);
    }
  }

  /** The parts other than pasted text, in order. */
  function NonTextParts(parts: seq<Part>): (r: seq<Part>)
    ensures |r| <= |parts|
    ensures forall p :: p in r <==> p in parts && p.kind != TextPart
  {
    if parts == [] then []
    else (if parts[0].kind != TextPart then [parts[0]] else []) + NonTextParts(parts[1..])
  }

  /** The filter works part by part, so the kept parts stay in order. */
  lemma {:induction false} NonTextPartsAppend(a: seq<Part>, b: seq<Part>)
    ensures NonTextParts(a + b) == NonTextParts(a) + NonTextParts(b)
  {
    if a == [] {
      assert a + b == b;
    } else {
      var head := if a[0].kind != TextPart then [a[0]] else [];
      assert (a + b)[0] == a[0];
      assert (a + b)[1..] == a[1..] + b;
      NonTextPartsAppend(a[1..], b);
      Regroup(head, NonTextParts(a[1..]), NonTextParts(b), NonTextParts(a + b), NonTextParts(a));
    }
  }

  /** One part is kept exactly when it is not pasted text. */
  lemma NonTextPartsOne(p: Part)
    ensures NonTextParts([p]) == (if p.kind != TextPart then [p] else [])
  {
    assert [p][1..] == [];
  }

  /** What a submission sends. */
  datatype Submission =
    | Ignored
    | Exited
    | NoModel
    | ShellCommand(command: string)
    | SlashCommand(name: string, arguments: string)
    | Message(parts: seq<Part>)

  /** `"/name"` as the first space-separated word names a known command. */
  predicate IsSlashCommand(text: string, commands: seq<string>) {
    StartsWith(text, "/") && Split(text, ' ')[0][1..] in commands
  }

  /** The send that follows the expansion: a shell command in shell mode, a
      slash command with the remaining words as its arguments, or else one
      text part followed by the other parts. */
  function Dispatch(shell: bool, text: string, parts: seq<Part>, commands: seq<string>): Submission {
    if shell then ShellCommand(text)
    else if IsSlashCommand(text, commands) then
      var words := Split(text, ' ');
      SlashCommand(words[0][1..], Join(words[1..], " "))
    else Message([Part(TextPart, text, None)] + NonTextParts(parts))
  }

  /** A slash command's name and arguments put back together give the text. */
  lemma SlashCommandRoundTrip(text: string, parts: seq<Part>, commands: seq<string>)
    requires Dispatch(false, text, parts, commands).SlashCommand?
    ensures Dispatch(false, text, parts, commands).name in commands
    ensures ' ' !in Dispatch(false, text, parts, commands).name
    ensures var s := Dispatch(false, text, parts, commands);
      text == "/" + s.name + " " + s.arguments || (s.arguments == "" && text == "/" + s.name)
  {
    var words := Split(text, ' ');
    JoinSplit(text, ' ');
    SplitPieces(text, ' ');
    assert words[0] in words;
    assert words[0] == text[..|words[0]|] by {
      SplitFirst(text, ' ');
    }
    assert words[0] == "/" + words[0][1..];
    if |words| > 1 {
      assert Join(words, " ") == words[0] + " " + Join(words[1..], " ");
    }
  }

  /** A message sends the expanded text first and then the non-text parts in
      their original order; pasted text parts are not sent again. */
  lemma MessageParts(text: string, parts: seq<Part>, commands: seq<string>)
    requires !IsSlashCommand(text, commands)
    ensures Dispatch(false, text, parts, commands).Message?
    ensures var sent := Dispatch(false, text, parts, commands).parts;
      sent[0] == Part(TextPart, text, None) && sent[1..] == NonTextParts(parts)
  {
  }

  // Pasting

  /** `replace(/\r\n/g, "\n")` */
  function CrlfToLf(s: string): string {
    if |s| >= 2 && s[0] == '\r' && s[1] == '\n' then "\n" + CrlfToLf(s[2..])
    else if s == [] then []
    else [s[0]] + CrlfToLf(s[1..])
  }

  /** `replace(/\r/g, "\n")` */
  function CrToLf(s: string): (r: string)
    ensures |r| == |s| && '\r' !in r
  {
    if s == [] then [] else [if s[0] == '\r' then '\n' else s[0]] + CrToLf(s[1..])
  }

  /** The number of `\r\n` pairs, counted left to right. */
  function CrlfCount(s: string): nat {
    if |s| >= 2 && s[0] == '\r' && s[1] == '\n' then 1 + CrlfCount(s[2..])
    else if s == [] then 0
    else CrlfCount(s[1..])
  }

  /** Pasted text with every line ending made a line feed. */
  function NormalizePasted(s: string): string {
    CrToLf(CrlfToLf(s))
  }

  lemma {:induction false} CrlfToLfCounts(s: string)
    ensures Count(CrlfToLf(s), '\n') == Count(s, '\n')
    ensures Count(CrlfToLf(s), '\r') + CrlfCount(s) == Count(s, '\r')
  {
    if |s| >= 2 && s[0] == '\r' && s[1] == '\n' {
      CrlfToLfCounts(s[2..]);
      assert s[1..][1..] == s[2..];
      assert Count(s, '\n') == Count(s[1..], '\n') == 1 + Count(s[2..], '\n');
      assert Count(CrlfToLf(s), '\n') == 1 + Count(CrlfToLf(s[2..]), '\n');
      assert Count(s, '\r') == 1 + Count(s[1..], '\r') == 1 + Count(s[2..], '\r');
      assert ("\n" + CrlfToLf(s[2..]))[1..] == CrlfToLf(s[2..]);
    } else if s != [] {
      CrlfToLfCounts(s[1..]);
      assert ([s[0]] + CrlfToLf(s[1..]))[1..] == CrlfToLf(s[1..]);
    }
  }

  lemma {:induction false} CrToLfCounts(s: string)
    ensures Count(CrToLf(s), '\n') == Count(s, '\n') + Count(s, '\r')
  {
    if s != [] {
      CrToLfCounts(s[1..]);
    }
  }

  lemma {:induction false} CrlfToLfWithoutCr(s: string)
    requires '\r' !in s
    ensures CrlfToLf(s) == s
  {
    if s != [] {
      CrlfToLfWithoutCr(s[1..]);
    }
  }

  lemma {:induction false} CrToLfWithoutCr(s: string)
    requires '\r' !in s
    ensures CrToLf(s) == s
  {
    if s != [] {
      CrToLfWithoutCr(s[1..]);
    }
  }

  /** Normalisation leaves no carriage return, turns each of `\r\n`, `\r` and
      `\n` into exactly one line feed, and leaves text without carriage
      returns alone. */
  lemma NormalizePastedSpec(s: string)
    ensures '\r' !in NormalizePasted(s)
    ensures Count(NormalizePasted(s), '\n') == Count(s, '\n') + Count(s, '\r') - CrlfCount(s)
    ensures '\r' !in s ==> NormalizePasted(s) == s
  {
    CrlfToLfCounts(s);
    CrToLfCounts(CrlfToLf(s));
    if '\r' !in s {
      CrlfToLfWithoutCr(s);
      CrToLfWithoutCr(s);
    }
  }

  /** What the paste handler does with pasted text that is not an image file. */
  datatype PasteAction =
    | Blocked
    | PasteCommand
    | Summarized(content: string, placeholder: string)
    | Inserted

  function LineCount(content: string): nat {
    Count(content, '\n') + 1
  }

  function PasteSummary(lines: nat): string {
    "[Pasted ~" + NatToString(lines) + " lines]"
  }

  function OnPaste(text: string, disabled: bool, summaryDisabled: bool): PasteAction {
    if disabled then Blocked
    else
      var content := Trim(NormalizePasted(text));
      if content == "" then PasteCommand
      else if (LineCount(content) >= 3 || |content| > 150) && !summaryDisabled then
        Summarized(content, PasteSummary(LineCount(content)))
      else Inserted
  }

  /** A paste is summarised exactly when it is allowed, non-empty after
      normalising and trimming, long (three lines or more, or over 150
      characters), and summaries are not switched off; the summary counts the
      content's lines. */
  lemma PasteSummarizedIff(text: string, disabled: bool, summaryDisabled: bool)
    ensures var content := Trim(NormalizePasted(text));
      OnPaste(text, disabled, summaryDisabled).Summarized? <==>
        !disabled && content != "" && (|Split(content, '\n')| >= 3 || |content| > 150) && !summaryDisabled
    ensures OnPaste(text, disabled, summaryDisabled).Summarized? ==>
      var content := Trim(NormalizePasted(text));
      OnPaste(text, disabled, summaryDisabled) == Summarized(content, PasteSummary(|Split(content, '\n')|))
    ensures OnPaste(text, disabled, summaryDisabled) == PasteCommand <==> !disabled && Trim(NormalizePasted(text)) == ""
  {
    LineCountPieces(Trim(NormalizePasted(text)));
  }

  lemma LineCountPieces(content: string)
    ensures LineCount(content) == |Split(content, '\n')|
  {
    SplitPieces(content, '\n');
  }

  /** The number of file parts, which numbers pasted images. */
  function FileCount(parts: seq<Part>): nat {
    if parts == [] then 0 else (if parts[0].kind == FilePart then 1 else 0) + FileCount(parts[1..])
  }

  lemma {:induction false} FileCountAppend(parts: seq<Part>, p: Part)
    ensures FileCount(parts + [p]) == FileCount(parts) + (if p.kind == FilePart then 1 else 0)
  {
    if parts != [] {
      FileCountAppend(parts[1..], p);
      assert (parts + [p])[1..] == parts[1..] + [p];
    }
  }

  function ImagePlaceholder(parts: seq<Part>): string {
    "[Image " + NatToString(FileCount(parts) + 1) + "]"
  }

  // The store

  class PromptStore {
    var input: string
    var parts: seq<Part>
    var extmarkToPartIndex: map<nat, nat>
    var shell: bool

    /** Every extmark points into the parts, and no two at the same part. */
    predicate Valid()
      reads this
    {
      && (forall id :: id in extmarkToPartIndex ==> extmarkToPartIndex[id] < |parts|)
      && Injective(extmarkToPartIndex)
    }

    constructor()
      ensures Valid()
      ensures input == "" && parts == [] && extmarkToPartIndex == map[] && !shell
    {
      input := "";
      parts := [];
      extmarkToPartIndex := map[];
      shell := false;
    }

    /** `pasteText`: a text part spanning the placeholder at the cursor, and a
        fresh extmark for it. The text area's own content is not modelled. */
    method PasteText(text: string, virtualText: string, offset: nat, extmarkId: nat)
      requires Valid() && extmarkId !in extmarkToPartIndex
      modifies this
      ensures Valid()
      ensures parts == old(parts) + [Part(TextPart, text, Some(Span(offset, offset + |virtualText|, virtualText)))]
      ensures extmarkToPartIndex == old(extmarkToPartIndex)[extmarkId := |old(parts)|]
      ensures input == old(input) && shell == old(shell)
    {
      var partIndex := |parts|;
      parts := parts + [Part(TextPart, text, Some(Span(offset, offset + |virtualText|, virtualText)))];
      extmarkToPartIndex := extmarkToPartIndex[extmarkId := partIndex];
    }

    /** `pasteImage`: a file part numbered after the file parts already there,
        whose extmark spans the placeholder but not the space typed after it. */
    method PasteImage(mime: string, content: string, offset: nat, extmarkId: nat) returns (inserted: string)
      requires Valid() && extmarkId !in extmarkToPartIndex
      modifies this
      ensures Valid()
      ensures inserted == ImagePlaceholder(old(parts)) + " "
      ensures parts == old(parts) + [Part(FilePart, "data:" + mime + ";base64," + content,
                                          Some(Span(offset, offset + |ImagePlaceholder(old(parts))|, ImagePlaceholder(old(parts)))))]
      ensures extmarkToPartIndex == old(extmarkToPartIndex)[extmarkId := |old(parts)|]
      ensures FileCount(parts) == FileCount(old(parts)) + 1
      ensures input == old(input) && shell == old(shell)
    {
      var count := FileCount(parts);
      var virtualText := "[Image " + NatToString(count + 1) + "]";
      var extmarkEnd := offset + |virtualText|;
      inserted := virtualText + " ";
      var part := Part(FilePart, "data:" + mime + ";base64," + content, Some(Span(offset, extmarkEnd, virtualText)));
      FileCountAppend(parts, part);
      var partIndex := |parts|;
      parts := parts + [part];
      extmarkToPartIndex := extmarkToPartIndex[extmarkId := partIndex];
    }

    /** `syncExtmarksWithPromptParts`: keep the parts that live extmarks still
        point at, in extmark order, with the extmarks' ranges. */
    method SyncExtmarks(marks: seq<Extmark>)
      requires Valid()
      modifies this
      ensures Valid()
      ensures (parts, extmarkToPartIndex) == Synced(marks, old(extmarkToPartIndex), old(parts))
      ensures input == old(input) && shell == old(shell)
    {
      var newMap: map<nat, nat> := map[];
      var newParts: seq<Part> := [];
      for i := 0 to |marks|
        invariant (newParts, newMap) == Synced(marks[..i], extmarkToPartIndex, parts)
      {
        var extmark := marks[i];
        assert marks[..i + 1][..i] == marks[..i];
        if extmark.id in extmarkToPartIndex {
          var partIndex := extmarkToPartIndex[extmark.id];
          if partIndex < |parts| {
            var part := Moved(parts[partIndex], extmark);
            newMap := newMap[extmark.id := |newParts|];
            newParts := newParts + [part];
          }
        }
      }
      assert marks[..|marks|] == marks;
      SyncedValid(marks, extmarkToPartIndex, parts);
      extmarkToPartIndex := newMap;
      parts := newParts;
    }

    /** The text area reported new content: record it, then resynchronise. */
    method ContentChanged(value: string, marks: seq<Extmark>)
      requires Valid()
      modifies this
      ensures Valid()
      ensures input == value && shell == old(shell)
      ensures (parts, extmarkToPartIndex) == Synced(marks, old(extmarkToPartIndex), old(parts))
    {
      input := value;
      SyncExtmarks(marks);
    }

    /** `submit`: the guards, the exit words, the inline expansion of pasted
        text in decreasing start order, the send, and the reset. */
    method Submit(disabled: bool, autocompleteVisible: bool, hasModel: bool, marks: seq<Extmark>, commands: seq<string>)
      returns (s: Submission)
      requires Valid()
      modifies this
      ensures Valid()
      ensures disabled || autocompleteVisible || old(input) == "" ==> s == Ignored && unchanged(this)
      ensures !(disabled || autocompleteVisible || old(input) == "") && IsExitWord(old(input)) ==> s == Exited && unchanged(this)
      ensures !(disabled || autocompleteVisible || old(input) == "") && !IsExitWord(old(input)) && !hasModel ==>
        s == NoModel && unchanged(this)
      ensures !(disabled || autocompleteVisible || old(input) == "") && !IsExitWord(old(input)) && hasModel ==>
        && s == Dispatch(old(shell), ExpandAll(old(input), SortByStartDesc(marks), old(extmarkToPartIndex), old(parts)), old(parts), commands)
        && input == "" && parts == [] && extmarkToPartIndex == map[] && !shell
    {
      if disabled || autocompleteVisible || input == "" {
        return Ignored;
      }
      var trimmed := Trim(input);
      if trimmed == "exit" || trimmed == "quit" || trimmed == ":q" {
        return Exited;
      }
      if !hasModel {
        return NoModel;
      }
      var inputText := ExpandInline(input, SortByStartDesc(marks), extmarkToPartIndex, parts);
      s := Dispatch(shell, inputText, parts, commands);
      input := "";
      parts := [];
      extmarkToPartIndex := map[];
      shell := false;
    }

    /** The editor returned `content`: the text becomes the input, the
        file and agent parts move to where their virtual text now first occurs
        (or are dropped), and each part with virtual text gets one of the fresh
        extmarks. An empty result changes nothing. */
    method EditorReturned(content: string, ids: seq<nat>)
      requires Valid()
      requires |ids| >= |parts| && forall i, j :: 0 <= i < j < |ids| ==> ids[i] != ids[j]
      modifies this
      ensures Valid()
      ensures content == "" ==> unchanged(this)
      ensures content != "" ==> input == content && parts == Reposition(NonTextParts(old(parts)), content)
      ensures content != "" ==> extmarkToPartIndex == Restored(parts, ids)
      ensures shell == old(shell)
    {
      if content == "" {
        return;
      }
      input := content;
      parts := Reposition(NonTextParts(parts), content);
      extmarkToPartIndex := Restored(parts, ids);
    }
  }

  /** The expansion loop of `submit`, over the already sorted extmarks. */
  method ExpandInline(text: string, sorted: seq<Extmark>, index: map<nat, nat>, parts: seq<Part>) returns (inputText: string)
    ensures inputText == ExpandAll(text, sorted, index, parts)
  {
    inputText := text;
    for i := 0 to |sorted|
      invariant ExpandAll(inputText, sorted[i..], index, parts) == ExpandAll(text, sorted, index, parts)
    {
      assert sorted[i..][1..] == sorted[i + 1..];
      var extmark := sorted[i];
      if extmark.id in index {
        var partIndex := index[extmark.id];
        if partIndex < |parts| && parts[partIndex].kind == TextPart && parts[partIndex].text != "" {
          inputText := SliceTo(inputText, extmark.start) + parts[partIndex].text + SliceFrom(inputText, extmark.end);
        }
      }
    }
    assert sorted[|sorted|..] == [];
  }

  /** What synchronising with the given extmarks yields, mark by mark. */
  function Synced(marks: seq<Extmark>, index: map<nat, nat>, parts: seq<Part>): (r: (seq<Part>, map<nat, nat>))
    ensures forall id :: id in r.1 ==> r.1[id] < |r.0|
    decreases |marks|
  {
    if marks == [] then ([], map[])
    else
      var prev := Synced(marks[..|marks| - 1], index, parts);
      var m := marks[|marks| - 1];
      if m.id in index && index[m.id] < |parts| then
        (prev.0 + [Moved(parts[index[m.id]], m)], prev.1[m.id := |prev.0|])
      else prev
  }

  predicate Injective(m: map<nat, nat>) {
    forall a, b :: a in m && b in m && a != b ==> m[a] != m[b]
  }

  /** The new map never sends two extmarks to the same part. */
  lemma {:induction false} SyncedValid(marks: seq<Extmark>, index: map<nat, nat>, parts: seq<Part>)
    ensures Injective(Synced(marks, index, parts).1)
    decreases |marks|
  {
    if marks != [] {
      var init := marks[..|marks| - 1];
      var prev := Synced(init, index, parts);
      SyncedValid(init, index, parts);
      assert Injective(prev.1);
      var m := marks[|marks| - 1];
      if m.id in index && index[m.id] < |parts| {
        var r := Synced(marks, index, parts);
        assert r.1 == prev.1[m.id := |prev.0|];
        forall a, b | a in r.1 && b in r.1 && a != b
          ensures r.1[a] != r.1[b]
        {
          if a != m.id && b != m.id {
            assert a in prev.1 && b in prev.1;
            assert r.1[a] == prev.1[a] && r.1[b] == prev.1[b];
          } else if a == m.id {
            assert b in prev.1;
            assert r.1[b] == prev.1[b] < |prev.0|;
          } else {
            assert a in prev.1;
            assert r.1[a] == prev.1[a] < |prev.0|;
          }
        }
      } else {
        assert Synced(marks, index, parts) == prev;
      }
    }
  }

  /** A live extmark whose id occurs once keeps its part: the part it pointed
      at, moved to the extmark's range, sits where the new map says; and every
      id of the new map is such an extmark. */
  lemma {:induction false} SyncedParts(marks: seq<Extmark>, index: map<nat, nat>, parts: seq<Part>, k: nat)
    requires k < |marks| && marks[k].id in index && index[marks[k].id] < |parts|
    requires forall j :: k < j < |marks| ==> marks[j].id != marks[k].id
    ensures var r := Synced(marks, index, parts);
      marks[k].id in r.1 && r.0[r.1[marks[k].id]] == Moved(parts[index[marks[k].id]], marks[k])
    decreases |marks|
  {
    var init := marks[..|marks| - 1];
    var prev := Synced(init, index, parts);
    if k < |marks| - 1 {
      SyncedParts(init, index, parts, k);
      assert init[k] == marks[k];
    }
  }

  lemma {:induction false} SyncedKeys(marks: seq<Extmark>, index: map<nat, nat>, parts: seq<Part>, id: nat)
    ensures id in Synced(marks, index, parts).1 ==>
      id in index && index[id] < |parts| && exists k :: 0 <= k < |marks| && marks[k].id == id
    ensures id in index && index[id] < |parts| && (exists k :: 0 <= k < |marks| && marks[k].id == id) ==>
      id in Synced(marks, index, parts).1
    decreases |marks|
  {
    if id in index && index[id] < |parts| && exists k :: 0 <= k < |marks| && marks[k].id == id {
      var k :| 0 <= k < |marks| && marks[k].id == id;
      var j := LastOccurrence(marks, id, k);
      SyncedParts(marks, index, parts, j);
    }
    if marks != [] {
      var init := marks[..|marks| - 1];
      SyncedKeys(init, index, parts, id);
      if id in Synced(init, index, parts).1 {
        var k :| 0 <= k < |init| && init[k].id == id;
        assert marks[k] == init[k];
      }
    }
  }

  /** An extmark the old map sends to an existing part. */
  predicate Live(m: Extmark, index: map<nat, nat>, parts: seq<Part>) {
    m.id in index && index[m.id] < |parts|
  }

  /** The parts the sync should rebuild, read front to back: one moved part
      for each live extmark, in extmark order. */
  function LiveParts(marks: seq<Extmark>, index: map<nat, nat>, parts: seq<Part>): seq<Part> {
    if marks == [] then []
    else
      (if Live(marks[0], index, parts) then [Moved(parts[index[marks[0].id]], marks[0])] else [])
        + LiveParts(marks[1..], index, parts)
  }

  lemma {:induction false} LivePartsSnoc(marks: seq<Extmark>, m: Extmark, index: map<nat, nat>, parts: seq<Part>)
    ensures LiveParts(marks + [m], index, parts)
         == LiveParts(marks, index, parts) + (if Live(m, index, parts) then [Moved(parts[index[m.id]], m)] else [])
    decreases |marks|
  {
    var tail := if Live(m, index, parts) then [Moved(parts[index[m.id]], m)] else [];
    if marks == [] {
      assert [m][1..] == [];
    } else {
      var head := if Live(marks[0], index, parts) then [Moved(parts[index[marks[0].id]], marks[0])] else [];
      assert (marks + [m])[0] == marks[0];
      assert (marks + [m])[1..] == marks[1..] + [m];
      LivePartsSnoc(marks[1..], m, index, parts);
      Regroup(head, LiveParts(marks[1..], index, parts), tail,
              LiveParts(marks + [m], index, parts), LiveParts(marks, index, parts));
    }
  }

  /** The rebuilt parts are exactly the live extmarks' parts, moved, in
      extmark order: nothing else is pushed and nothing is reordered. */
  lemma {:induction false} SyncedPartsInOrder(marks: seq<Extmark>, index: map<nat, nat>, parts: seq<Part>)
    ensures Synced(marks, index, parts).0 == LiveParts(marks, index, parts)
    decreases |marks|
  {
    if marks != [] {
      var init := marks[..|marks| - 1];
      var m := marks[|marks| - 1];
      SyncedPartsInOrder(init, index, parts);
      assert init + [m] == marks;
      LivePartsSnoc(init, m, index, parts);
    }
  }

  /** With distinct extmark ids, every rebuilt part is reached by exactly one
      key of the new map. */
  lemma {:induction false} SyncedCount(marks: seq<Extmark>, index: map<nat, nat>, parts: seq<Part>)
    requires forall i, j :: 0 <= i < j < |marks| ==> marks[i].id != marks[j].id
    ensures |Synced(marks, index, parts).0| == |Synced(marks, index, parts).1|
    decreases |marks|
  {
    if marks != [] {
      var init := marks[..|marks| - 1];
      var m := marks[|marks| - 1];
      var prev := Synced(init, index, parts);
      SyncedCount(init, index, parts);
      if Live(m, index, parts) {
        SyncedKeys(init, index, parts, m.id);
        assert m.id !in prev.1;
        assert Synced(marks, index, parts).1 == prev.1[m.id := |prev.0|];
      }
    }
  }

  /** With distinct extmark ids, the new map follows extmark order. */
  lemma {:induction false} SyncedOrder(marks: seq<Extmark>, index: map<nat, nat>, parts: seq<Part>, i: nat, j: nat)
    requires forall a, b :: 0 <= a < b < |marks| ==> marks[a].id != marks[b].id
    requires i < j < |marks| && Live(marks[i], index, parts) && Live(marks[j], index, parts)
    ensures var r := Synced(marks, index, parts);
      marks[i].id in r.1 && marks[j].id in r.1 && r.1[marks[i].id] < r.1[marks[j].id]
    decreases |marks|
  {
    var init := marks[..|marks| - 1];
    var m := marks[|marks| - 1];
    var prev := Synced(init, index, parts);
    var r := Synced(marks, index, parts);
    assert init[i] == marks[i];
    SyncedKeys(init, index, parts, marks[i].id);
    assert marks[i].id in prev.1;
    if j == |marks| - 1 {
      assert r.1 == prev.1[m.id := |prev.0|];
      assert r.1[marks[i].id] == prev.1[marks[i].id] < |prev.0|;
    } else {
      assert init[j] == marks[j];
      SyncedOrder(init, index, parts, i, j);
      if Live(m, index, parts) {
        assert r.1 == prev.1[m.id := |prev.0|];
      } else {
        assert r == prev;
      }
    }
  }

  /** The last extmark with the given id, at or after a known one. */
  lemma LastOccurrence(marks: seq<Extmark>, id: nat, k: nat) returns (j: nat)
    requires k < |marks| && marks[k].id == id
    ensures k <= j < |marks| && marks[j].id == id
    ensures forall i :: j < i < |marks| ==> marks[i].id != id
    decreases |marks| - k
  {
    if exists i :: k < i < |marks| && marks[i].id == id {
      var i :| k < i < |marks| && marks[i].id == id;
      j := LastOccurrence(marks, id, i);
    } else {
      j := k;
    }
  }

  // The editor

  /** The virtual text an external edit repositions: only file and agent
      parts have one. */
  function MovableText(p: Part): string {
    if p.kind == TextPart then "" else Virtual(p)
  }

  /** The parts whose virtual text vanished from the edited content. */
  function Dropped(parts: seq<Part>, content: string): nat {
    if parts == [] then 0
    else
      var gone := MovableText(parts[0]) != "" && IndexOf(content, MovableText(parts[0])).None?;
      (if gone then 1 else 0) + Dropped(parts[1..], content)
  }

  /** The repositioning after an external edit. */
  function Reposition(parts: seq<Part>, content: string): (r: seq<Part>)
    ensures |r| == |parts| - Dropped(parts, content)
    ensures forall q :: q in r && MovableText(q) == "" ==> q in parts
    ensures forall q :: q in r && MovableText(q) != "" ==>
      && q.source.Some?
      && IndexOf(content, MovableText(q)) == Some(q.source.value.start)
      && q.source.value.end == q.source.value.start + |MovableText(q)|
  {
    if parts == [] then [] else RepositionPart(parts[0], content) + Reposition(parts[1..], content)
  }

  /** One part of the repositioning map and filter. */
  function RepositionPart(p: Part, content: string): (r: seq<Part>)
    ensures |r| == (if MovableText(p) != "" && IndexOf(content, MovableText(p)).None? then 0 else 1)
    ensures forall q :: q in r && MovableText(q) == "" ==> q == p
    ensures forall q :: q in r && MovableText(q) != "" ==>
      && q.source.Some?
      && IndexOf(content, MovableText(q)) == Some(q.source.value.start)
      && q.source.value.end == q.source.value.start + |MovableText(q)|
  {
    var v := MovableText(p);
    if v == "" then [p]
    else match IndexOf(content, v)
      case None => []
      case Some(k) => [p.(source := Some(p.source.value.(start := k, end := k + |v|)))]
  }

  /** Parts are repositioned one by one, so they stay in order. */
  lemma {:induction false} RepositionAppend(a: seq<Part>, b: seq<Part>, content: string)
    ensures Reposition(a + b, content) == Reposition(a, content) + Reposition(b, content)
  {
    if a == [] {
      assert a + b == b;
    } else {
      assert (a + b)[0] == a[0];
      assert (a + b)[1..] == a[1..] + b;
      RepositionAppend(a[1..], b, content);
      Regroup(RepositionPart(a[0], content), Reposition(a[1..], content), Reposition(b, content),
              Reposition(a + b, content), Reposition(a, content));
    }
  }

  lemma Regroup<T>(h: seq<T>, x: seq<T>, y: seq<T>, whole: seq<T>, left: seq<T>)
    requires whole == h + (x + y) && left == h + x
    ensures whole == left + y
  {
  }

  /** A part without virtual text is kept as it is; one whose virtual text is
      gone is dropped; any other keeps its kind, text and virtual text, and
      only its range moves to the first occurrence. */
  lemma RepositionOne(p: Part, content: string)
    ensures MovableText(p) == "" ==> Reposition([p], content) == [p]
    ensures MovableText(p) != "" && IndexOf(content, MovableText(p)).None? ==> Reposition([p], content) == []
    ensures MovableText(p) != "" && IndexOf(content, MovableText(p)).Some? ==>
      var k := IndexOf(content, MovableText(p)).value;
      Reposition([p], content) == [Part(p.kind, p.text, Some(Span(k, k + |MovableText(p)|, Virtual(p))))]
  {
    assert [p][1..] == [];
  }

  /** The first occurrence is where the part lands. */
  lemma RepositionAtFirstOccurrence(parts: seq<Part>, content: string, q: Part)
    requires q in Reposition(parts, content) && MovableText(q) != ""
    ensures OccursAt(content, MovableText(q), q.source.value.start)
    ensures forall j :: 0 <= j < q.source.value.start ==> !OccursAt(content, MovableText(q), j)
  {
  }

  /** Nothing is dropped when every virtual text is still in the content. */
  lemma {:induction false} RepositionKeepsAll(parts: seq<Part>, content: string)
    requires forall k :: 0 <= k < |parts| && MovableText(parts[k]) != "" ==> IndexOf(content, MovableText(parts[k])).Some?
    ensures |Reposition(parts, content)| == |parts|
  {
    if parts != [] {
      RepositionKeepsAll(parts[1..], content);
    }
  }

  /** `restoreExtmarksFromParts` after the edit: one fresh extmark per part
      that has virtual text. */
  function Restored(parts: seq<Part>, ids: seq<nat>): (m: map<nat, nat>)
    requires |ids| >= |parts| && forall i, j :: 0 <= i < j < |ids| ==> ids[i] != ids[j]
    ensures forall k :: 0 <= k < |parts| && Virtual(parts[k]) != "" ==> ids[k] in m && m[ids[k]] == k
    ensures forall id :: id in m ==> m[id] < |parts| && Virtual(parts[m[id]]) != "" && ids[m[id]] == id
  {
    map k | 0 <= k < |parts| && Virtual(parts[k]) != "" :: ids[k] := k
  }
}
