/** The chunker of `WikiProvenance` (`get_page_chunks` and
    `join_single_sentence_chunks`): a page's text is split into lines, heading
    and blank lines are dropped, and the remaining lines are merged into
    paragraph chunks by counting periods. */
module Chunking {
  import opened Base
  import opened Text

  // ---------------------------------------------------------------------------
  // Line cleaning (the list comprehension of `get_page_chunks`)
  // ---------------------------------------------------------------------------

  /** The filter of `get_page_chunks` exactly as written: not a `==` heading,
      not a `===` heading, not blank once stripped. */
  predicate KeepLine(line: string)
  {
    !StartsWith(line, "==") && !StartsWith(line, "===") && Strip(line) != ""
  }

  /** The `===` test adds nothing: a line kept is one that neither starts with
      `==` nor is blank. */
  lemma HeadingTestSubsumed()
    ensures forall line :: KeepLine(line) <==> !StartsWith(line, "==") && !IsBlank(line)
  {
    forall line: string
      ensures KeepLine(line) <==> !StartsWith(line, "==") && !IsBlank(line)
    {
      StripShape(line);
      if StartsWith(line, "===") {
        assert line[..2] == line[..3][..2];
      }
    }
  }

  /** A heading indented by whitespace is not recognised as a heading: it is
      kept as a content line, like any other. */
  lemma IndentedHeadingKept(heading: string)
    requires !IsBlank(heading)
    ensures KeepLine(" " + heading)
  {
    HeadingTestSubsumed();
    NotBlankInside(" ", heading, "");
    assert " " + heading + "" == " " + heading;
    assert (" " + heading)[0] == ' ';
  }

  /** The lines `get_page_chunks` keeps: in their original order, every
      occurrence of the lines that do not start with `==` and are not blank,
      and nothing else. */
  function CleanLines(lines: seq<string>): (kept: seq<string>)
    ensures forall i :: 0 <= i < |kept| ==> !StartsWith(kept[i], "==") && !IsBlank(kept[i])
    ensures forall i :: 0 <= i < |lines| && !StartsWith(lines[i], "==") && !IsBlank(lines[i]) ==> lines[i] in kept
    ensures forall line :: multiset(kept)[line] ==
                           (if !StartsWith(line, "==") && !IsBlank(line) then multiset(lines)[line] else 0)
    ensures IsSubsequence(kept, lines)
  {
    HeadingTestSubsumed();
    FilterMeaning(KeepLine, lines);
    Filter(KeepLine, lines)
  }

  /** The properties of `CleanLines` determine it: an order-preserving
      selection of content lines that keeps every occurrence of each is the
      cleaned page. */
  lemma CleanLinesDetermined(lines: seq<string>, kept: seq<string>)
    requires IsSubsequence(kept, lines)
    requires forall i :: 0 <= i < |kept| ==> !StartsWith(kept[i], "==") && !IsBlank(kept[i])
    requires forall line :: !StartsWith(line, "==") && !IsBlank(line) ==> multiset(kept)[line] == multiset(lines)[line]
    ensures kept == CleanLines(lines)
  {
    HeadingTestSubsumed();
    FilterUnique(KeepLine, lines, kept);
  }

  // ---------------------------------------------------------------------------
  // Paragraph merging (`join_single_sentence_chunks`)
  // ---------------------------------------------------------------------------

  /** A line with two or more periods, which starts a new paragraph. */
  predicate IsMultiSentence(line: string)
  {
    Count(line, '.') > 1
  }

  /** Emitting the running paragraph, stripped, when it is not empty. */
  function Flush(chunks: seq<string>, paragraph: string): seq<string>
  {
    if paragraph != "" then chunks + [Strip(paragraph)] else chunks
  }

  /** The chunks `join_single_sentence_chunks` ends with, from a point where it
      has emitted `chunks`, holds `paragraph` and has `rest` still to read. */
  function Run(chunks: seq<string>, paragraph: string, rest: seq<string>): seq<string>
    decreases |rest|
  {
    if rest == [] then Flush(chunks, paragraph)
    else if !IsMultiSentence(rest[0]) then Run(chunks, paragraph + " " + rest[0], rest[1..])
    else Run(Flush(chunks, paragraph), rest[0], rest[1..])
  }

  /** The chunks `join_single_sentence_chunks` returns for `lines`. */
  function Paragraphs(lines: seq<string>): seq<string>
  {
    Run([], "", lines)
  }

  /** `join_single_sentence_chunks`: one pass with a running paragraph. */
  method JoinSingleSentenceChunks(chunks: seq<string>) returns (newChunks: seq<string>)
    ensures newChunks == Paragraphs(chunks)
  {
    newChunks := [];
    var paragraph := "";
    for i := 0 to |chunks|
      invariant Run(newChunks, paragraph, chunks[i..]) == Paragraphs(chunks)
    {
      var chunk := chunks[i];
      assert chunks[i..][0] == chunk && chunks[i..][1..] == chunks[i + 1..];
      if Count(chunk, '.') <= 1 {
        paragraph := paragraph + " " + chunk;
      } else {
        if paragraph != "" {
          newChunks := newChunks + [Strip(paragraph)];
        }
        paragraph := chunk;
      }
    }
    if paragraph != "" {
      newChunks := newChunks + [Strip(paragraph)];
    }
  }

  // ---------------------------------------------------------------------------
  // An independent description: chunks are the stripped texts of line groups
  // ---------------------------------------------------------------------------

  /** The text `" " + l` for every line `l`, in order: what appending the lines
      one after the other to a running paragraph adds to it. */
  function SpaceJoined(lines: seq<string>): string
    decreases |lines|
  {
    if lines == [] then "" else " " + lines[0] + SpaceJoined(lines[1..])
  }

  /** The number of lines at the front of `lines` with at most one period. */
  function LeadingSingles(lines: seq<string>): (n: nat)
    ensures n <= |lines|
    ensures forall i :: 0 <= i < n ==> !IsMultiSentence(lines[i])
    ensures n < |lines| ==> IsMultiSentence(lines[n])
    decreases |lines|
  {
    if lines == [] || IsMultiSentence(lines[0]) then 0 else 1 + LeadingSingles(lines[1..])
  }

  /** How the line that opens a group starts its paragraph: a multi-period
      line replaces the paragraph, a single-period line is added after a space. */
  function Opening(line: string): string
  {
    if IsMultiSentence(line) then line else " " + line
  }

  /** The chunks described group by group: each group is a line followed by
      the single-period lines after it, up to the next multi-period line, and
      becomes one chunk, its opening and the followers space-joined, stripped. */
  function Grouped(lines: seq<string>): seq<string>
    decreases |lines|
  {
    if lines == [] then []
    else
      var k := LeadingSingles(lines[1..]);
      [Strip(Opening(lines[0]) + SpaceJoined(lines[1..][..k]))] + Grouped(lines[1..][k..])
  }

  /** Appending single-period lines to the running paragraph adds their `SpaceJoined` text. */
  lemma {:induction false} RunSingles(chunks: seq<string>, paragraph: string, rest: seq<string>, k: nat)
    requires k <= |rest|
    requires forall i :: 0 <= i < k ==> !IsMultiSentence(rest[i])
    ensures Run(chunks, paragraph, rest) == Run(chunks, paragraph + SpaceJoined(rest[..k]), rest[k..])
    decreases k
  {
    if k == 0 {
      assert rest[..0] == [] && rest[0..] == rest && paragraph + "" == paragraph;
    } else {
      var p := paragraph + " " + rest[0];
      var tail := rest[1..][..k - 1];
      assert Run(chunks, paragraph, rest) == Run(chunks, p, rest[1..]);
      RunSingles(chunks, p, rest[1..], k - 1);
      assert rest[..k][0] == rest[0] && rest[..k][1..] == tail;
      assert rest[1..][k - 1..] == rest[k..];
      assert SpaceJoined(rest[..k]) == " " + rest[0] + SpaceJoined(tail);
      var q := SpaceJoined(tail);
      ConcatAssoc(paragraph + " ", rest[0], q);
      ConcatAssoc(paragraph, " ", rest[0] + q);
      ConcatAssoc(" ", rest[0], q);
    }
  }

  /** What the run emits later does not depend on what it has emitted so far. */
  lemma {:induction false} RunPrefix(chunks: seq<string>, paragraph: string, rest: seq<string>)
    ensures Run(chunks, paragraph, rest) == chunks + Run([], paragraph, rest)
    decreases |rest|
  {
    if rest == [] {
      assert [] + [Strip(paragraph)] == [Strip(paragraph)];
    } else if !IsMultiSentence(rest[0]) {
      RunPrefix(chunks, paragraph + " " + rest[0], rest[1..]);
    } else {
      var later := Run([], rest[0], rest[1..]);
      RunPrefix(Flush(chunks, paragraph), rest[0], rest[1..]);
      RunPrefix(Flush([], paragraph), rest[0], rest[1..]);
      if paragraph != "" {
        assert chunks + [Strip(paragraph)] + later == chunks + ([] + [Strip(paragraph)] + later);
      }
    }
  }

  /** From a non-empty running paragraph, the run emits that paragraph extended
      by the following single-period lines, then the chunks of the remaining groups. */
  lemma {:induction false} RunFromParagraph(paragraph: string, rest: seq<string>)
    requires paragraph != ""
    ensures var k := LeadingSingles(rest);
      Run([], paragraph, rest) == [Strip(paragraph + SpaceJoined(rest[..k]))] + Grouped(rest[k..])
    decreases |rest|
  {
    var k := LeadingSingles(rest);
    RunSingles([], paragraph, rest, k);
    var p := paragraph + SpaceJoined(rest[..k]);
    var tail := rest[k..];
    if tail == [] {
      assert Run([], p, tail) == [] + [Strip(p)] == [Strip(p)] + [];
    } else {
      var line := tail[0];
      assert IsMultiSentence(line) && Opening(line) == line;
      assert |p| >= |paragraph| > 0;
      assert Flush([], p) == [Strip(p)];
      assert Run([], p, tail) == Run([Strip(p)], line, tail[1..]);
      RunPrefix([Strip(p)], line, tail[1..]);
      RunFromParagraph(line, tail[1..]);
    }
  }

  /** For non-empty input, the run starts from the opening of the first line. */
  lemma ParagraphsOpen(lines: seq<string>)
    requires lines != []
    ensures Paragraphs(lines) == Run([], Opening(lines[0]), lines[1..])
  {
    if !IsMultiSentence(lines[0]) {
      assert "" + " " + lines[0] == " " + lines[0];
    }
  }

  /** `join_single_sentence_chunks` emits exactly one chunk per line group, in order. */
  lemma ParagraphsAreGroups(lines: seq<string>)
    ensures Paragraphs(lines) == Grouped(lines)
  {
    if lines != [] {
      ParagraphsOpen(lines);
      RunFromParagraph(Opening(lines[0]), lines[1..]);
    }
  }

  // ---------------------------------------------------------------------------
  // What the chunker guarantees
  // ---------------------------------------------------------------------------

  /** An empty line list gives no chunks. */
  lemma NoLinesNoChunks()
    ensures Paragraphs([]) == []
  {
  }

  /** The number of multi-period lines. */
  function MultiSentenceCount(lines: seq<string>): nat
  {
    |Filter(IsMultiSentence, lines)|
  }

  /** Counting multi-period lines from the front. */
  lemma MultiSentenceCountCons(lines: seq<string>)
    requires lines != []
    ensures MultiSentenceCount(lines) ==
      (if IsMultiSentence(lines[0]) then 1 else 0) + MultiSentenceCount(lines[1..])
  {
    assert lines == [lines[0]] + lines[1..];
    FilterAppend(IsMultiSentence, [lines[0]], lines[1..]);
    FilterSingleton(IsMultiSentence, lines[0]);
  }

  /** From a non-empty running paragraph, the run adds one chunk per
      multi-period line still to read, plus the final paragraph. */
  lemma {:induction false} RunCount(chunks: seq<string>, paragraph: string, rest: seq<string>)
    requires paragraph != ""
    ensures |Run(chunks, paragraph, rest)| == |chunks| + MultiSentenceCount(rest) + 1
    decreases |rest|
  {
    if rest != [] {
      MultiSentenceCountCons(rest);
      if IsMultiSentence(rest[0]) {
        assert rest[0] != "";
        RunCount(Flush(chunks, paragraph), rest[0], rest[1..]);
      } else {
        RunCount(chunks, paragraph + " " + rest[0], rest[1..]);
      }
    }
  }

  /** There is one chunk per line with two or more periods, plus one when the
      first line has at most one period. */
  lemma ParagraphCount(lines: seq<string>)
    ensures |Paragraphs(lines)| ==
      MultiSentenceCount(lines) + (if lines != [] && !IsMultiSentence(lines[0]) then 1 else 0)
  {
    if lines != [] {
      MultiSentenceCountCons(lines);
      var first := lines[0];
      if IsMultiSentence(first) {
        assert first != "";
        RunCount([], first, lines[1..]);
      } else {
        RunCount([], "" + " " + first, lines[1..]);
      }
    }
  }

  /** Each chunk of `Grouped` comes from one group: an opening line of the
      input and input lines following it. */
  lemma {:induction false} GroupOf(lines: seq<string>, k: nat) returns (first: string, followers: seq<string>)
    requires k < |Grouped(lines)|
    ensures first in lines
    ensures forall j :: 0 <= j < |followers| ==> followers[j] in lines
    ensures Grouped(lines)[k] == Strip(Opening(first) + SpaceJoined(followers))
    decreases |lines|
  {
    var n := LeadingSingles(lines[1..]);
    var rest := lines[1..][n..];
    var groups := Grouped(rest);
    assert Grouped(lines) == [Strip(Opening(lines[0]) + SpaceJoined(lines[1..][..n]))] + groups;
    if k == 0 {
      first, followers := lines[0], lines[1..][..n];
      assert forall j :: 0 <= j < |followers| ==> followers[j] == lines[j + 1];
    } else {
      first, followers := GroupOf(rest, k - 1);
      assert Grouped(lines)[k] == groups[k - 1];
      assert forall x :: x in rest ==> x in lines;
    }
  }

  /** The group text contains only the group's characters and spaces. */
  lemma {:induction false} SpaceJoinedChars(lines: seq<string>, c: char)
    requires c in SpaceJoined(lines)
    ensures c == ' ' || exists i :: 0 <= i < |lines| && c in lines[i]
    decreases |lines|
  {
    if c != ' ' && c !in lines[0] {
      assert c in SpaceJoined(lines[1..]);
      SpaceJoinedChars(lines[1..], c);
      var i :| 0 <= i < |lines[1..]| && c in lines[1..][i];
      assert c in lines[i + 1];
    }
  }

  /** A group opened by a non-blank line has a non-blank text. */
  lemma GroupTextNotBlank(first: string, followers: seq<string>)
    requires !IsBlank(first)
    ensures !IsBlank(Opening(first) + SpaceJoined(followers))
  {
    if IsMultiSentence(first) {
      NotBlankInside("", first, SpaceJoined(followers));
      assert "" + first + SpaceJoined(followers) == Opening(first) + SpaceJoined(followers);
    } else {
      NotBlankInside(" ", first, SpaceJoined(followers));
    }
  }

  /** Every chunk is stripped; fed non-blank lines, no chunk is empty; fed
      lines without a line break, no chunk has one. */
  lemma ChunkShape(lines: seq<string>, k: nat)
    requires k < |Paragraphs(lines)|
    ensures IsStripped(Paragraphs(lines)[k])
    ensures (forall i :: 0 <= i < |lines| ==> !IsBlank(lines[i])) ==> Paragraphs(lines)[k] != ""
    ensures (forall i :: 0 <= i < |lines| ==> '\n' !in lines[i]) ==> '\n' !in Paragraphs(lines)[k]
  {
    ParagraphsAreGroups(lines);
    var first, followers := GroupOf(lines, k);
    var text := Opening(first) + SpaceJoined(followers);
    assert Paragraphs(lines)[k] == Strip(text);
    StripShape(text);
    if forall i :: 0 <= i < |lines| ==> !IsBlank(lines[i]) {
      GroupTextNotBlank(first, followers);
    }
    if (forall i :: 0 <= i < |lines| ==> '\n' !in lines[i]) && '\n' in Strip(text) {
      StripChars(text, '\n');
      if '\n' in SpaceJoined(followers) {
        SpaceJoinedChars(followers, '\n');
      }
    }
  }

  /** A multi-period line does not stand alone: a single-period line after it
      is appended to it, after one space. */
  lemma MultiSentenceLineAbsorbsFollowing(multi: string, single: string)
    requires IsMultiSentence(multi) && !IsMultiSentence(single)
    requires IsStripped(multi) && IsStripped(single) && single != ""
    ensures Paragraphs([multi, single]) == [multi + " " + single]
  {
    var lines := [multi, single];
    assert lines[1..] == [single] && [single][1..] == [];
    assert Paragraphs(lines) == Run([], multi, [single]);
    var t := multi + " " + single;
    assert Run([], multi, [single]) == Run([], t, []) == [Strip(t)];
    assert t[0] == multi[0] && t[|t| - 1] == single[|single| - 1];
    StripOfPadded("", t, "");
    assert "" + t + "" == t;
  }

  // ---------------------------------------------------------------------------
  // The page chunker (`get_page_chunks`)
  // ---------------------------------------------------------------------------

  /** The chunks of a page text. */
  function PageChunks(pageContent: string): seq<string>
  {
    Paragraphs(CleanLines(Split(pageContent, '\n')))
  }

  /** `get_page_chunks`: split on line breaks, clean, merge. */
  method GetPageChunks(pageContent: string) returns (chunks: seq<string>)
    ensures chunks == Paragraphs(CleanLines(Split(pageContent, '\n')))
  {
    var lines := Split(pageContent, '\n');
    lines := CleanLines(lines);
    chunks := JoinSingleSentenceChunks(lines);
  }

  /** Every chunk of a page is stripped, non-empty and free of line breaks. */
  lemma PageChunkShape(pageContent: string, k: nat)
    requires k < |PageChunks(pageContent)|
    ensures var chunk := PageChunks(pageContent)[k];
      IsStripped(chunk) && chunk != "" && '\n' !in chunk
  {
    var lines := CleanLines(Split(pageContent, '\n'));
    forall i | 0 <= i < |lines|
      ensures '\n' !in lines[i]
    {
      SubsequenceHolds(lines, Split(pageContent, '\n'), i);
    }
    ChunkShape(lines, k);
  }

  /** A single line becomes one chunk: the line stripped, after the space that
      is put before a line with at most one period. */
  lemma SingleLineParagraph(line: string)
    ensures Paragraphs([line]) == [Strip(Opening(line))]
  {
    assert [line][1..] == [];
    if IsMultiSentence(line) {
      assert Run([], "", [line]) == Run(Flush([], ""), line, []);
      assert Flush([], "") == [];
      assert line != "" by { assert Count(line, '.') > 1; }
      assert Flush([], line) == [] + [Strip(line)];
    } else {
      assert "" + " " + line == " " + line;
      assert Run([], "", [line]) == Run([], " " + line, []);
      assert Flush([], " " + line) == [] + [Strip(" " + line)] == [Strip(" " + line)];
    }
  }

  /** A page whose only content line is an indented heading yields the
      heading, marker included, as its one chunk. */
  lemma IndentedHeadingChunk(heading: string)
    requires IsStripped(heading) && heading != ""
    ensures Paragraphs(CleanLines([" " + heading])) == [heading]
  {
    var line := " " + heading;
    assert CleanLines([line]) == [line] by {
      assert !IsBlank(heading) by {
        StripShape(heading);
        StripOfPadded("", heading, "");
        assert "" + heading + "" == heading;
      }
      IndentedHeadingKept(heading);
      FilterSingleton(KeepLine, line);
    }
    SingleLineParagraph(line);
    IndentedOpening(heading);
  }

  /** However many periods it has, an indented heading line opens a paragraph
      whose stripped text is the heading. */
  lemma IndentedOpening(heading: string)
    requires IsStripped(heading)
    ensures Strip(Opening(" " + heading)) == heading
  {
    if IsMultiSentence(" " + heading) {
      assert " " + heading == " " + heading + "";
      assert IsBlank(" ");
      StripOfPadded(" ", heading, "");
    } else {
      assert " " + (" " + heading) == "  " + heading + "";
      assert IsBlank("  ");
      StripOfPadded("  ", heading, "");
    }
  }

  /** An empty page has no chunks. */
  lemma EmptyPageNoChunks()
    ensures PageChunks("") == []
  {
    assert Split("", '\n') == [""];
    assert IsBlank("");
    assert CleanLines([""]) == [];
  }
}
