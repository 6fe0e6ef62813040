/**
  Mapping recognised text back to blocks (`core/ocr.py`): one loop joins the blocks into the full
  text line by line, another one computes where each block stands in it, and lookups use the map.
 */
module Ocr {
  import opened Results

  /** A recognised block, in reading order, with the line group its top edge falls into. */
  datatype Block = Block(text: string, line: int)

  /** (start, end, block index) */
  type Entry = (int, int, int)

  // ----- Python's str.join

  function Join(separator: string, parts: seq<string>): string {
    if parts == [] then ""
    else if |parts| == 1 then parts[0]
    else Join(separator, parts[..|parts| - 1]) + separator + parts[|parts| - 1]
  }

  // ----- what the full text is

  /** The character between a block and the one before it. */
  function Separator(blocks: seq<Block>, i: nat): string
    requires 0 < i < |blocks|
  {
    if blocks[i].line == blocks[i - 1].line then " " else "\n"
  }

  /** The texts of the first `n` blocks with one separator between neighbours. */
  function Text(blocks: seq<Block>, n: nat): string
    requires n <= |blocks|
  {
    if n == 0 then ""
    else if n == 1 then blocks[0].text
    else Text(blocks, n - 1) + Separator(blocks, n - 1) + blocks[n - 1].text
  }

  /** The lines finished so far and the parts of the current one, joined. */
  function Joined(lines: seq<string>, current: seq<string>): string {
    Join("\n", lines + [Join(" ", current)])
  }

  /** The loop of `extract_with_coordinates` that groups blocks into lines and joins them. */
  method BuildText(blocks: seq<Block>) returns (fullText: string)
    ensures fullText == Text(blocks, |blocks|)
  {
    var lines: seq<string>, currentLineParts: seq<string> := [], [];
    var currentLineGroup: Option<int> := None;
    for i := 0 to |blocks|
      invariant i == 0 <==> currentLineGroup == None
      invariant i == 0 ==> lines == [] && currentLineParts == []
      invariant i > 0 ==> currentLineGroup == Some(blocks[i - 1].line) && currentLineParts != []
      invariant i > 0 ==> Text(blocks, i) == Joined(lines, currentLineParts)
    {
      var block := blocks[i];
      if currentLineGroup == None {
        currentLineGroup := Some(block.line);
        currentLineParts := [block.text];
        assert [] + [Join(" ", currentLineParts)] == [block.text];
      } else if Some(block.line) == currentLineGroup {
        currentLineParts := currentLineParts + [block.text];
      } else {
        lines := lines + [Join(" ", currentLineParts)];
        currentLineParts := [block.text];
        currentLineGroup := Some(block.line);
      }
    }
    if currentLineParts != [] {
      lines := lines + [Join(" ", currentLineParts)];
    }
    fullText := Join("\n", lines);
  }

  // ----- where the blocks stand

  function StartOf(blocks: seq<Block>, i: nat): nat
    requires i < |blocks|
    decreases i, 0
  {
    if i == 0 then 0 else EndOf(blocks, i - 1) + 1
  }

  function EndOf(blocks: seq<Block>, i: nat): nat
    requires i < |blocks|
    decreases i, 1
  {
    StartOf(blocks, i) + |blocks[i].text|
  }

  lemma OffsetStep(blocks: seq<Block>, i: nat)
    requires i < |blocks|
    ensures StartOf(blocks, i) == if i == 0 then 0 else EndOf(blocks, i - 1) + 1
    ensures EndOf(blocks, i) == StartOf(blocks, i) + |blocks[i].text|
  {
  }

  /** The loop of `extract_with_coordinates` that fills the offset map. */
  method BuildOffsets(blocks: seq<Block>) returns (offsetMap: seq<Entry>)
    ensures |offsetMap| == |blocks|
    ensures forall i :: 0 <= i < |blocks| ==> offsetMap[i] == (StartOf(blocks, i), EndOf(blocks, i), i)
  {
    hide StartOf, EndOf;
    offsetMap := [];
    var currentOffset := 0;
    for i := 0 to |blocks|
      invariant |offsetMap| == i
      invariant currentOffset == if i == 0 then 0 else EndOf(blocks, i - 1)
      invariant forall j :: 0 <= j < i ==> offsetMap[j] == (StartOf(blocks, j), EndOf(blocks, j), j)
    {
      OffsetStep(blocks, i);
      if i > 0 {
        if blocks[i].line != blocks[i - 1].line {
          currentOffset := currentOffset + 1;
        } else {
          currentOffset := currentOffset + 1;
        }
      }
      var start := currentOffset;
      var end := currentOffset + |blocks[i].text|;
      offsetMap := offsetMap + [(start, end, i)];
      currentOffset := end;
    }
  }

  lemma {:induction false} TextLength(blocks: seq<Block>, n: nat)
    requires 0 < n <= |blocks|
    ensures |Text(blocks, n)| == EndOf(blocks, n - 1)
  {
    if n > 1 {
      TextLength(blocks, n - 1);
    }
  }

  lemma {:induction false} TextGrows(blocks: seq<Block>, m: nat, n: nat)
    requires 0 < m <= n <= |blocks|
    ensures Text(blocks, m) <= Text(blocks, n)
    decreases n
  {
    if m < n {
      TextGrows(blocks, m, n - 1);
    }
  }

  /**
    The two loops agree: every entry of the map cuts exactly its block out of the full text, and
    between an entry and the next one stands exactly their separator.
   */
  lemma OffsetsAreExact(blocks: seq<Block>, i: nat)
    requires i < |blocks|
    ensures var text := Text(blocks, |blocks|);
            && StartOf(blocks, i) <= EndOf(blocks, i) <= |text|
            && text[StartOf(blocks, i)..EndOf(blocks, i)] == blocks[i].text
            && (i > 0 ==> StartOf(blocks, i) == EndOf(blocks, i - 1) + 1 &&
                          text[EndOf(blocks, i - 1)..StartOf(blocks, i)] == Separator(blocks, i))
            && (i == 0 ==> StartOf(blocks, i) == 0)
            && (i == |blocks| - 1 ==> EndOf(blocks, i) == |text|)
  {
    hide StartOf, EndOf, Separator, Text;
    TextLength(blocks, i + 1);
    TextGrows(blocks, i + 1, |blocks|);
    OffsetStep(blocks, i);
    TextStep(blocks, i);
    var text, body := Text(blocks, |blocks|), blocks[i].text;
    if i > 0 {
      TextLength(blocks, i);
    }
  }

  lemma TextStep(blocks: seq<Block>, i: nat)
    requires i < |blocks|
    ensures Text(blocks, i + 1) == if i == 0 then blocks[0].text else Text(blocks, i) + Separator(blocks, i) + blocks[i].text
    ensures i > 0 ==> |Separator(blocks, i)| == 1
  {
  }

  /** The entries are in order, disjoint, and with the separators between them they cover the text. */
  lemma {:induction false} EntriesInOrder(blocks: seq<Block>, i: nat, j: nat)
    requires i < j < |blocks|
    ensures EndOf(blocks, i) < StartOf(blocks, j)
    decreases j
  {
    if i < j - 1 {
      EntriesInOrder(blocks, i, j - 1);
    }
  }

  /** Every position of the text lies in exactly one entry or is the separator before exactly one. */
  lemma {:induction false} EveryPositionAccounted(blocks: seq<Block>, n: nat, position: int) returns (i: nat)
    requires 0 < n <= |blocks| && 0 <= position < |Text(blocks, n)|
    ensures i < n
    ensures StartOf(blocks, i) <= position < EndOf(blocks, i) || (i > 0 && position == EndOf(blocks, i - 1))
    decreases n
  {
    TextLength(blocks, n);
    if n == 1 {
      i := 0;
    } else {
      TextLength(blocks, n - 1);
      if position < EndOf(blocks, n - 2) {
        i := EveryPositionAccounted(blocks, n - 1, position);
      } else {
        i := n - 1;
      }
    }
  }

  // ----- looking spans up

  /** The linear search of `get_blocks_for_span`, used when there is no interval tree. */
  method LinearLookup(blocks: seq<Block>, offsetMap: seq<Entry>, start: int, end: int) returns (overlapping: seq<int>)
    requires |offsetMap| == |blocks|
    requires forall i :: 0 <= i < |blocks| ==> offsetMap[i] == (StartOf(blocks, i), EndOf(blocks, i), i)
    ensures forall i :: i in overlapping <==> 0 <= i < |blocks| && start < EndOf(blocks, i) && end > StartOf(blocks, i)
    ensures forall a, b :: 0 <= a < b < |overlapping| ==> overlapping[a] < overlapping[b]
  {
    overlapping := [];
    for k := 0 to |offsetMap|
      invariant forall i :: i in overlapping <==> 0 <= i < k && start < EndOf(blocks, i) && end > StartOf(blocks, i)
      invariant forall a, b :: 0 <= a < b < |overlapping| ==> overlapping[a] < overlapping[b]
    {
      var (blockStart, blockEnd, index) := offsetMap[k];
      if start < blockEnd && end > blockStart {
        assert forall a :: 0 <= a < |overlapping| ==> overlapping[a] in overlapping;
        overlapping := overlapping + [index];
      }
    }
  }

  /** What the interval tree holds: the entries that are not empty. */
  function Tree(blocks: seq<Block>): set<int> {
    set i | 0 <= i < |blocks| && StartOf(blocks, i) < EndOf(blocks, i)
  }

  /** `tree[start:end]`: nothing for an empty span, otherwise the intervals that meet it. */
  function TreeLookup(blocks: seq<Block>, start: int, end: int): set<int> {
    if start >= end then {}
    else set i | i in Tree(blocks) && StartOf(blocks, i) < end && EndOf(blocks, i) > start
  }

  predicate InEntry(blocks: seq<Block>, i: nat, position: int)
    requires i < |blocks|
  {
    StartOf(blocks, i) <= position < EndOf(blocks, i)
  }

  /** The tree finds a block for a span exactly when the two share a character. */
  lemma TreeFindsSharedCharacters(blocks: seq<Block>, start: int, end: int, i: int)
    requires 0 <= i < |blocks|
    ensures i in TreeLookup(blocks, start, end) <==>
            exists position :: start <= position < end && InEntry(blocks, i, position)
  {
    if i in TreeLookup(blocks, start, end) {
      var position := if start < StartOf(blocks, i) then StartOf(blocks, i) else start;
      assert start <= position < end && InEntry(blocks, i, position);
    }
  }

  /**
    The linear search and the tree agree on a block unless the block is empty or the span is: then
    the linear search alone finds a block that strictly surrounds the span, or lies strictly inside it.
   */
  lemma LookupsDifferIff(blocks: seq<Block>, start: int, end: int, i: int)
    requires 0 <= i < |blocks|
    ensures i in TreeLookup(blocks, start, end) ==> start < EndOf(blocks, i) && end > StartOf(blocks, i)
    ensures (start < EndOf(blocks, i) && end > StartOf(blocks, i) && i !in TreeLookup(blocks, start, end)) <==>
            (start < EndOf(blocks, i) && StartOf(blocks, i) < end && (blocks[i].text == "" || start >= end))
  {
  }
}
