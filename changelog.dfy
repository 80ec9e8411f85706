/** Release-notes assembly (script/changelog.ts): the normalisation of the
    version references, the filtering of `git log` lines, the grouping of
    community contributors by login, and the notes themselves, from either the
    generated changelog or the raw commit subjects.

    `git`, `gh`, the language model and the timeout race are inputs here: the
    log text, the decoded comparison records, and the generated text (absent
    when the generation timed out). */
module Changelog {
  import opened Wrappers
  import opened JsText

  const Team: seq<string> := [
    "actions-user", "opencode", "rekram1-node", "thdxr", "kommander",
    "jayair", "fwang", "adamdotdevin", "iamdavidhill", "opencode-agent[bot]"
  ]

  // References

  /** A version reference gets a leading "v" unless it has one. */
  function VersionRef(r: string): (v: string)
    ensures StartsWith(v, "v")
    ensures StartsWith(r, "v") ==> v == r
    ensures !StartsWith(r, "v") ==> v == "v" + r
  {
    if StartsWith(r, "v") then r else "v" + r
  }

  /** The end reference: "HEAD" is kept verbatim, anything else is a version. */
  function ToRef(r: string): (v: string)
    ensures r == "HEAD" ==> v == "HEAD"
    ensures r != "HEAD" ==> v == VersionRef(r)
  {
    if r == "HEAD" then r else VersionRef(r)
  }

  /** Normalising twice changes nothing. */
  lemma RefsIdempotent(r: string)
    ensures VersionRef(VersionRef(r)) == VersionRef(r)
    ensures ToRef(ToRef(r)) == ToRef(r)
  {
  }

  // Commit lines

  /** `\w`: an ASCII letter, digit or underscore. */
  predicate IsWordChar(c: char) {
    ('a' <= c <= 'z') || ('A' <= c <= 'Z') || ('0' <= c <= '9') || c == '_'
  }

  /** The length of the run of word characters that starts the line. */
  function WordRun(s: string): (n: nat)
    ensures n <= |s|
    ensures forall k :: 0 <= k < n ==> IsWordChar(s[k])
    ensures n < |s| ==> !IsWordChar(s[n])
  {
    if s != [] && IsWordChar(s[0]) then 1 + WordRun(s[1..]) else 0
  }

  /** `/^\w+ /`: the line starts with a word and a space; the result is the
      position just after that space. */
  function HashPrefix(s: string): (r: Option<nat>)
    ensures r.Some? ==> 2 <= r.value <= |s| && s[r.value - 1] == ' '
  {
    var n := WordRun(s);
    if 0 < n < |s| && s[n] == ' ' then Some(n + 1) else None
  }

  /** The subject prefixes that mark a commit as not worth a note. */
  const NoisePrefixes: seq<string> := ["ignore:", "test:", "chore:", "ci:"]

  predicate StartsWithAny(s: string, prefixes: seq<string>) {
    exists k :: 0 <= k < |prefixes| && StartsWithIgnoreCase(s, prefixes[k])
  }

  /** `/^\w+ (ignore:|test:|chore:|ci:)/i` */
  predicate IsNoise(line: string) {
    var h := HashPrefix(line);
    h.Some? && StartsWithAny(line[h.value..], NoisePrefixes)
  }

  /** A `git log --oneline` line is a hash, a space and the subject. */
  lemma HashPrefixOf(hash: string, subject: string)
    requires |hash| > 0 && forall k :: 0 <= k < |hash| ==> IsWordChar(hash[k])
    ensures HashPrefix(hash + " " + subject) == Some(|hash| + 1)
    ensures (hash + " " + subject)[|hash| + 1..] == subject
    ensures IsNoise(hash + " " + subject) <==> StartsWithAny(subject, NoisePrefixes)
  {
    var s := hash + " " + subject;
    WordRunOf(hash, " " + subject);
    assert s == hash + (" " + subject);
    assert s[|hash| + 1..] == subject;
  }

  lemma {:induction false} WordRunOf(word: string, rest: string)
    requires forall k :: 0 <= k < |word| ==> IsWordChar(word[k])
    requires rest == [] || !IsWordChar(rest[0])
    ensures WordRun(word + rest) == |word|
  {
    if word != [] {
      WordRunOf(word[1..], rest);
      assert (word + rest)[1..] == word[1..] + rest;
    } else {
      assert word + rest == rest;
    }
  }

  /** `getCommits`' filter: keep non-empty lines that are not noise, in order. */
  function KeptLines(lines: seq<string>): (kept: seq<string>)
    ensures |kept| <= |lines|
    ensures forall l :: l in kept ==> l in lines && l != "" && !IsNoise(l)
  {
    if lines == [] then []
    else (if lines[0] != "" && !IsNoise(lines[0]) then [lines[0]] else []) + KeptLines(lines[1..])
  }

  lemma {:induction false} KeptLinesComplete(lines: seq<string>, l: string)
    requires l in lines && l != "" && !IsNoise(l)
    ensures l in KeptLines(lines)
  {
    if lines[0] != l {
      KeptLinesComplete(lines[1..], l);
    }
  }

  /** The filter works line by line: kept lines stay in log order. */
  lemma {:induction false} KeptLinesAppend(a: seq<string>, b: seq<string>)
    ensures KeptLines(a + b) == KeptLines(a) + KeptLines(b)
  {
    if a == [] {
      assert a + b == b;
    } else {
      assert (a + b)[0] == a[0];
      assert (a + b)[1..] == a[1..] + b;
      KeptLinesAppend(a[1..], b);
    }
  }

  /** One line is kept exactly when it is non-empty and not noise. */
  lemma KeptLinesOne(l: string)
    ensures KeptLines([l]) == (if l != "" && !IsNoise(l) then [l] else [])
  {
    assert [l][1..] == [];
  }

  /** The commits listed by `git log`. */
  function CommitLines(log: string): seq<string> {
    KeptLines(Split(log, '\n'))
  }

  /** A line of the log is listed exactly when it is non-empty and not noise. */
  lemma CommitLinesMembers(log: string, l: string)
    ensures l in CommitLines(log) <==> l in Split(log, '\n') && l != "" && !IsNoise(l)
  {
    if l in Split(log, '\n') && l != "" && !IsNoise(l) {
      KeptLinesComplete(Split(log, '\n'), l);
    }
  }

  // Contributors

  /** One decoded comparison record. */
  datatype CommitInfo = CommitInfo(login: Option<string>, message: string)

  /** The prefixes that keep a commit out of the thank-you list. */
  const SkippedTitlePrefixes: seq<string> := ["ignore:", "test:", "chore:", "ci:", "release:"]

  /** The first line of the message. */
  function Title(message: string): string {
    Split(message, '\n')[0]
  }

  /** The record counts: its title is not skipped and its login is present,
      non-empty and not a team member's. */
  predicate Counts(c: CommitInfo) {
    && !StartsWithAny(Title(c.message), SkippedTitlePrefixes)
    && c.login.Some? && c.login.value != "" && c.login.value !in Team
  }

  /** The titles recorded for a login, in encounter order. */
  function TitlesOf(commits: seq<CommitInfo>, login: string): seq<string> {
    if commits == [] then []
    else
      (if Counts(commits[0]) && commits[0].login.value == login then [Title(commits[0].message)] else [])
        + TitlesOf(commits[1..], login)
  }

  /** The logins in order of first appearance. */
  function LoginsSeen(seen: seq<string>, commits: seq<CommitInfo>): seq<string>
    decreases |commits|
  {
    if commits == [] then seen
    else if Counts(commits[0]) && commits[0].login.value !in seen then LoginsSeen(seen + [commits[0].login.value], commits[1..])
    else LoginsSeen(seen, commits[1..])
  }

  /** The `Map` of the source: insertion-ordered keys and their titles. */
  datatype Contributors = Contributors(order: seq<string>, titles: map<string, seq<string>>)

  predicate Distinct(s: seq<string>) {
    forall i, j :: 0 <= i < j < |s| ==> s[i] != s[j]
  }

  lemma {:induction false} LoginsSeenMembers(seen: seq<string>, commits: seq<CommitInfo>, l: string)
    decreases |commits|
    ensures Distinct(seen) ==> Distinct(LoginsSeen(seen, commits))
    ensures seen <= LoginsSeen(seen, commits)
    ensures l in LoginsSeen(seen, commits) <==> l in seen || exists k :: 0 <= k < |commits| && Counts(commits[k]) && commits[k].login.value == l
  {
    LoginsSeenGrows(seen, commits);
    if commits != [] {
      var c := commits[0];
      var seen' := if Counts(c) && c.login.value !in seen then seen + [c.login.value] else seen;
      LoginsSeenMembers(seen', commits[1..], l);
      assert LoginsSeen(seen, commits) == LoginsSeen(seen', commits[1..]);
      if exists k :: 0 <= k < |commits| && Counts(commits[k]) && commits[k].login.value == l {
        var k :| 0 <= k < |commits| && Counts(commits[k]) && commits[k].login.value == l;
        if k > 0 {
          assert commits[1..][k - 1] == commits[k];
        }
      }
      if exists k :: 0 <= k < |commits[1..]| && Counts(commits[1..][k]) && commits[1..][k].login.value == l {
        var k :| 0 <= k < |commits[1..]| && Counts(commits[1..][k]) && commits[1..][k].login.value == l;
        assert commits[k + 1] == commits[1..][k];
      }
    }
  }

  /** First-seen order only appends, and appends only logins not yet seen. */
  lemma {:induction false} LoginsSeenGrows(seen: seq<string>, commits: seq<CommitInfo>)
    decreases |commits|
    ensures Distinct(seen) ==> Distinct(LoginsSeen(seen, commits))
    ensures seen <= LoginsSeen(seen, commits)
  {
    if commits != [] {
      var c := commits[0];
      var seen' := if Counts(c) && c.login.value !in seen then seen + [c.login.value] else seen;
      LoginsSeenGrows(seen', commits[1..]);
      assert seen <= seen';
    }
  }

  lemma {:induction false} TitlesOfAppend(a: seq<CommitInfo>, b: seq<CommitInfo>, login: string)
    ensures TitlesOf(a + b, login) == TitlesOf(a, login) + TitlesOf(b, login)
  {
    if a == [] {
      assert a + b == b;
    } else {
      var head := if Counts(a[0]) && a[0].login.value == login then [Title(a[0].message)] else [];
      assert (a + b)[0] == a[0];
      assert (a + b)[1..] == a[1..] + b;
      assert TitlesOf(a + b, login) == head + TitlesOf(a[1..] + b, login);
      TitlesOfAppend(a[1..], b, login);
      assert TitlesOf(a, login) == head + TitlesOf(a[1..], login);
    }
  }

  lemma {:induction false} LoginsSeenAppend(seen: seq<string>, a: seq<CommitInfo>, b: seq<CommitInfo>)
    ensures LoginsSeen(seen, a + b) == LoginsSeen(LoginsSeen(seen, a), b)
    decreases |a|
  {
    if a == [] {
      assert a + b == b;
    } else {
      assert (a + b)[1..] == a[1..] + b;
      var c := a[0];
      var seen' := if Counts(c) && c.login.value !in seen then seen + [c.login.value] else seen;
      LoginsSeenAppend(seen', a[1..], b);
    }
  }

  /** `getContributors`' loop, after the records are decoded. */
  method GroupContributors(commits: seq<CommitInfo>) returns (c: Contributors)
    ensures c.order == LoginsSeen([], commits)
    ensures forall l :: l in c.titles <==> l in c.order
    ensures forall l :: l in c.titles ==> c.titles[l] == TitlesOf(commits, l)
  {
    var order: seq<string> := [];
    var titles: map<string, seq<string>> := map[];
    for i := 0 to |commits|
      invariant order == LoginsSeen([], commits[..i])
      invariant forall l :: l in titles <==> l in order
      invariant forall l :: l in titles ==> titles[l] == TitlesOf(commits[..i], l)
    {
      var commit := commits[i];
      assert commits[..i + 1] == commits[..i] + [commit];
      GroupStep(commits[..i], commit);
      var title := Split(commit.message, '\n')[0];
      if StartsWithAny(title, SkippedTitlePrefixes) {
        continue;
      }
      if commit.login.Some? && commit.login.value != "" && commit.login.value !in Team {
        var login := commit.login.value;
        if login !in titles {
          order := order + [login];
          titles := titles[login := []];
        }
        titles := titles[login := titles[login] + [title]];
      }
    }
    assert commits[..|commits|] == commits;
    c := Contributors(order, titles);
  }

  /** What one more record does to the specification of the grouping. */
  lemma GroupStep(pre: seq<CommitInfo>, c: CommitInfo)
    ensures LoginsSeen([], pre + [c])
         == if Counts(c) && c.login.value !in LoginsSeen([], pre) then LoginsSeen([], pre) + [c.login.value] else LoginsSeen([], pre)
    ensures forall l :: TitlesOf(pre + [c], l) == TitlesOf(pre, l) + (if Counts(c) && c.login.value == l then [Title(c.message)] else [])
    ensures forall l :: l !in LoginsSeen([], pre) ==> TitlesOf(pre, l) == []
  {
    LoginsSeenAppend([], pre, [c]);
    forall l
      ensures TitlesOf(pre + [c], l) == TitlesOf(pre, l) + (if Counts(c) && c.login.value == l then [Title(c.message)] else [])
    {
      TitlesOfAppend(pre, [c], l);
    }
    forall l | l !in LoginsSeen([], pre)
      ensures TitlesOf(pre, l) == []
    {
      LoginsSeenMembers([], pre, l);
      if TitlesOf(pre, l) != [] {
        TitlesOfNonEmpty(pre, l);
      }
    }
  }

  lemma {:induction false} TitlesOfNonEmpty(commits: seq<CommitInfo>, l: string)
    requires TitlesOf(commits, l) != []
    ensures exists k :: 0 <= k < |commits| && Counts(commits[k]) && commits[k].login.value == l
  {
    if !(Counts(commits[0]) && commits[0].login.value == l) {
      TitlesOfNonEmpty(commits[1..], l);
      var k :| 0 <= k < |commits[1..]| && Counts(commits[1..][k]) && commits[1..][k].login.value == l;
      assert commits[k + 1] == commits[1..][k];
    }
  }

  /** The contributors are the distinct logins of the counted records, in the
      order they first appear, and each has at least one title. */
  lemma ContributorsShape(commits: seq<CommitInfo>, l: string)
    ensures Distinct(LoginsSeen([], commits))
    ensures l in LoginsSeen([], commits) <==> exists k :: 0 <= k < |commits| && Counts(commits[k]) && commits[k].login.value == l
    ensures l in LoginsSeen([], commits) ==> TitlesOf(commits, l) != []
  {
    LoginsSeenMembers([], commits, l);
    if l in LoginsSeen([], commits) {
      var k :| 0 <= k < |commits| && Counts(commits[k]) && commits[k].login.value == l;
      assert commits == commits[..k] + [commits[k]] + commits[k + 1..];
      TitlesOfAppend(commits[..k] + [commits[k]], commits[k + 1..], l);
      TitlesOfAppend(commits[..k], [commits[k]], l);
    }
  }

  // Notes

  /** `commit.replace(/^\w+ /, "")` */
  function StripHash(commit: string): string {
    match HashPrefix(commit)
    case Some(n) => commit[n..]
    case None => commit
  }

  /** The notes from the generated text: its lines that start with "- ". */
  function GeneratedNotes(lines: seq<string>): (r: seq<string>)
    ensures forall l :: l in r ==> l in lines && StartsWith(l, "- ")
  {
    if lines == [] then []
    else (if StartsWith(lines[0], "- ") then [lines[0]] else []) + GeneratedNotes(lines[1..])
  }

  /** Every `- ` line of the generated text is kept. */
  lemma {:induction false} GeneratedNotesComplete(lines: seq<string>, l: string)
    requires l in lines && StartsWith(l, "- ")
    ensures l in GeneratedNotes(lines)
  {
    if lines[0] != l {
      GeneratedNotesComplete(lines[1..], l);
    }
  }

  /** The generated lines are filtered one by one, so they stay in order. */
  lemma {:induction false} GeneratedNotesAppend(a: seq<string>, b: seq<string>)
    ensures GeneratedNotes(a + b) == GeneratedNotes(a) + GeneratedNotes(b)
  {
    if a == [] {
      assert a + b == b;
    } else {
      assert (a + b)[0] == a[0];
      assert (a + b)[1..] == a[1..] + b;
      GeneratedNotesAppend(a[1..], b);
    }
  }

  /** One line is kept exactly when it starts with `- `. */
  lemma GeneratedNotesOne(l: string)
    ensures GeneratedNotes([l]) == (if StartsWith(l, "- ") then [l] else [])
  {
    assert [l][1..] == [];
  }

  /** The fallback notes: one "- subject" per commit. */
  function FallbackNotes(commits: seq<string>): (r: seq<string>)
    ensures |r| == |commits|
    ensures forall k :: 0 <= k < |commits| ==> r[k] == "- " + StripHash(commits[k])
  {
    if commits == [] then [] else ["- " + StripHash(commits[0])] + FallbackNotes(commits[1..])
  }

  function ThankYouHeader(n: nat): string {
    "**Thank you to " + NatToString(n) + " community contributor" + (if n > 1 then "s" else "") + ":**"
  }

  function TitleLines(titles: seq<string>): (r: seq<string>)
    ensures |r| == |titles| && forall k :: 0 <= k < |titles| ==> r[k] == "  - " + titles[k]
  {
    if titles == [] then [] else ["  - " + titles[0]] + TitleLines(titles[1..])
  }

  /** One block per login: "- @login:" and then its titles. */
  function LoginBlocks(order: seq<string>, titles: map<string, seq<string>>): seq<string>
    requires forall l :: l in order ==> l in titles
  {
    if order == [] then []
    else ["- @" + order[0] + ":"] + TitleLines(titles[order[0]]) + LoginBlocks(order[1..], titles)
  }

  predicate WellFormed(c: Contributors) {
    forall l :: l in c.order ==> l in c.titles
  }

  function ThankYou(c: Contributors): seq<string>
    requires WellFormed(c)
  {
    if |c.order| > 0 then ["", ThankYouHeader(|c.order|)] + LoginBlocks(c.order, c.titles) else []
  }

  /** The whole notes: nothing without commits; otherwise the change lines
      (generated when the generated text is present and non-empty, else the
      fallback) and then the thank-you section. */
  function Notes(commits: seq<string>, generated: Option<string>, c: Contributors): seq<string>
    requires WellFormed(c)
  {
    if commits == [] then []
    else
      (if generated.Some? && generated.value != "" then GeneratedNotes(Split(generated.value, '\n')) else FallbackNotes(commits))
        + ThankYou(c)
  }

  /** `buildNotes`, with the pushes onto the notes list. */
  method BuildNotes(commits: seq<string>, generated: Option<string>, c: Contributors) returns (notes: seq<string>)
    requires WellFormed(c)
    ensures notes == Notes(commits, generated, c)
  {
    notes := [];
    if |commits| == 0 {
      return;
    }
    if generated.Some? && generated.value != "" {
      notes := AddGenerated(Split(generated.value, '\n'));
    } else {
      notes := AddFallback(commits);
    }
    assert notes == (if generated.Some? && generated.value != "" then GeneratedNotes(Split(generated.value, '\n')) else FallbackNotes(commits));
    notes := AddThankYou(notes, c);
  }

  /** The pushes of the generated lines that start with `- `. */
  method AddGenerated(lines: seq<string>) returns (notes: seq<string>)
    ensures notes == GeneratedNotes(lines)
  {
    notes := [];
    for i := 0 to |lines|
      invariant notes + GeneratedNotes(lines[i..]) == GeneratedNotes(lines)
    {
      GeneratedStep(notes, lines, i);
      if StartsWith(lines[i], "- ") {
        notes := notes + [lines[i]];
      }
    }
    assert lines[|lines|..] == [];
  }

  /** The fallback pushes: one `- ` line per commit, hash stripped. */
  method AddFallback(commits: seq<string>) returns (notes: seq<string>)
    ensures notes == FallbackNotes(commits)
  {
    notes := [];
    for i := 0 to |commits|
      invariant |notes| == i
      invariant forall k :: 0 <= k < i ==> notes[k] == "- " + StripHash(commits[k])
    {
      var message := match HashPrefix(commits[i]) case Some(n) => commits[i][n..] case None => commits[i];
      assert message == StripHash(commits[i]);
      notes := notes + ["- " + message];
    }
    assert |FallbackNotes(commits)| == |commits|;
  }

  /** The thank-you pushes of `buildNotes`. */
  method AddThankYou(changes: seq<string>, c: Contributors) returns (notes: seq<string>)
    requires WellFormed(c)
    ensures notes == changes + ThankYou(c)
  {
    notes := changes;
    if |c.order| > 0 {
      notes := notes + [""];
      notes := notes + [ThankYouHeader(|c.order|)];
      notes := AddBlocks(notes, c.order, c.titles);
    }
  }

  /** The pushes for each contributor in turn: the login, then its titles. */
  method AddBlocks(start: seq<string>, order: seq<string>, titles: map<string, seq<string>>) returns (notes: seq<string>)
    requires forall l :: l in order ==> l in titles
    ensures notes == start + LoginBlocks(order, titles)
  {
    notes := start;
    for i := 0 to |order|
      invariant notes + LoginBlocks(order[i..], titles) == start + LoginBlocks(order, titles)
    {
      var login := order[i];
      BlockStep(notes, order, titles, i);
      notes := notes + ["- @" + login + ":"];
      notes := AddTitles(notes, titles[login]);
    }
    assert order[|order|..] == [];
    assert order[0..] == order;
  }

  /** The pushes of one contributor's titles. */
  method AddTitles(start: seq<string>, userCommits: seq<string>) returns (notes: seq<string>)
    ensures notes == start + TitleLines(userCommits)
  {
    notes := start;
    for j := 0 to |userCommits|
      invariant notes + TitleLines(userCommits[j..]) == start + TitleLines(userCommits)
    {
      TitleLinesUnfold(userCommits, j);
      notes := notes + ["  - " + userCommits[j]];
    }
    assert userCommits[|userCommits|..] == [];
    assert userCommits[0..] == userCommits;
  }

  lemma GeneratedUnfold(lines: seq<string>, i: nat)
    requires i < |lines|
    ensures GeneratedNotes(lines[i..]) == (if StartsWith(lines[i], "- ") then [lines[i]] else []) + GeneratedNotes(lines[i + 1..])
  {
    assert lines[i..][1..] == lines[i + 1..];
  }

  lemma GeneratedStep(notes: seq<string>, lines: seq<string>, i: nat)
    requires i < |lines|
    ensures (if StartsWith(lines[i], "- ") then notes + [lines[i]] else notes) + GeneratedNotes(lines[i + 1..])
      == notes + GeneratedNotes(lines[i..])
  {
    GeneratedUnfold(lines, i);
    var head := if StartsWith(lines[i], "- ") then [lines[i]] else [];
    assert (notes + head) + GeneratedNotes(lines[i + 1..]) == notes + (head + GeneratedNotes(lines[i + 1..]));
  }

  lemma BlocksUnfold(order: seq<string>, titles: map<string, seq<string>>, i: nat)
    requires forall l :: l in order ==> l in titles
    requires i < |order|
    ensures LoginBlocks(order[i..], titles) == ["- @" + order[i] + ":"] + TitleLines(titles[order[i]]) + LoginBlocks(order[i + 1..], titles)
  {
    assert order[i..][1..] == order[i + 1..];
  }

  lemma BlockStep(notes: seq<string>, order: seq<string>, titles: map<string, seq<string>>, i: nat)
    requires forall l :: l in order ==> l in titles
    requires i < |order|
    ensures (notes + ["- @" + order[i] + ":"]) + TitleLines(titles[order[i]]) + LoginBlocks(order[i + 1..], titles)
      == notes + LoginBlocks(order[i..], titles)
  {
    BlocksUnfold(order, titles, i);
    var h := ["- @" + order[i] + ":"];
    var t := TitleLines(titles[order[i]]);
    var rest := LoginBlocks(order[i + 1..], titles);
    assert (notes + h) + t + rest == notes + (h + t + rest);
  }

  lemma TitleLinesUnfold(titles: seq<string>, j: nat)
    requires j < |titles|
    ensures TitleLines(titles[j..]) == ["  - " + titles[j]] + TitleLines(titles[j + 1..])
  {
    assert titles[j..][1..] == titles[j + 1..];
  }

  lemma {:induction false} FallbackAppend(commits: seq<string>, last: string)
    ensures FallbackNotes(commits + [last]) == FallbackNotes(commits) + ["- " + StripHash(last)]
  {
  }

  // Properties of the notes

  /** No commits, no notes: nothing else is consulted. */
  lemma NoCommitsNoNotes(generated: Option<string>, c: Contributors)
    requires WellFormed(c)
    ensures Notes([], generated, c) == []
  {
  }

  /** The fallback strips the hash of each `git log` line. */
  lemma FallbackSubject(hash: string, subject: string)
    requires |hash| > 0 && forall k :: 0 <= k < |hash| ==> IsWordChar(hash[k])
    ensures FallbackNotes([hash + " " + subject]) == ["- " + subject]
  {
    HashPrefixOf(hash, subject);
  }

  /** The thank-you section appears exactly when there are contributors: a
      blank line, a header with their number ("contributors" only for more
      than one), then a block per login in order, each opening with
      "- @login:" followed by that login's titles. */
  lemma ThankYouShape(c: Contributors)
    requires WellFormed(c)
    ensures |c.order| == 0 <==> ThankYou(c) == []
    ensures |c.order| > 0 ==>
      && ThankYou(c)[0] == "" && ThankYou(c)[1] == ThankYouHeader(|c.order|)
      && ThankYou(c)[2] == "- @" + c.order[0] + ":"
      && ThankYou(c)[3..3 + |c.titles[c.order[0]]|] == TitleLines(c.titles[c.order[0]])
    ensures |c.order| > 0 ==> |ThankYou(c)| == 2 + |c.order| + Total(c.order, c.titles)
  {
    if |c.order| > 0 {
      BlocksLength(c.order, c.titles);
      var first := ["- @" + c.order[0] + ":"] + TitleLines(c.titles[c.order[0]]);
      assert ThankYou(c) == ["", ThankYouHeader(|c.order|)] + first + LoginBlocks(c.order[1..], c.titles);
    }
  }

  function Total(order: seq<string>, titles: map<string, seq<string>>): nat
    requires forall l :: l in order ==> l in titles
  {
    if order == [] then 0 else |titles[order[0]]| + Total(order[1..], titles)
  }

  lemma {:induction false} BlocksLength(order: seq<string>, titles: map<string, seq<string>>)
    requires forall l :: l in order ==> l in titles
    ensures |LoginBlocks(order, titles)| == |order| + Total(order, titles)
  {
    if order != [] {
      BlocksLength(order[1..], titles);
    }
  }

  /** The header's plural. */
  lemma HeaderPlural(n: nat)
    ensures n == 1 ==> ThankYouHeader(n) == "**Thank you to 1 community contributor:**"
    ensures n > 1 ==> ThankYouHeader(n) == "**Thank you to " + NatToString(n) + " community contributors:**"
  {
  }
}
