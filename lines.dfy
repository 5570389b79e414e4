/** The text normaliser of the teaching-load parser. */
module Lines {
  import opened Wrappers
  import opened Strings
  import opened Sequences

  /** What `map(line => line.trim()).filter(Boolean)` keeps of one piece:
      the trimmed piece, unless it is empty. */
  function KeepLine(piece: string): (r: Option<string>)
    ensures r.Some? ==> r.value != "" && IsTrimmed(r.value) && forall c :: c in r.value ==> c in piece
  {
    var t := Trim(piece);
    if t == "" then None else Some(t)
  }

  function KeptPieces(pieces: seq<string>): seq<Option<string>> {
    seq(|pieces|, k requires 0 <= k < |pieces| => KeepLine(pieces[k]))
  }

  /** `text.split("\n").map(line => line.trim()).filter(Boolean)`: no line is
      empty and none has surrounding whitespace. */
  function NormalizeLines(text: string): (lines: seq<string>)
    ensures forall k :: 0 <= k < |lines| ==> lines[k] != "" && IsTrimmed(lines[k]) && '\n' !in lines[k]
  {
    var pieces := Split(text, '\n');
    var kept := KeptPieces(pieces);
    CompactPositions(kept);
    forall k | 0 <= k < |Compact(kept)|
      ensures Compact(kept)[k] != "" && IsTrimmed(Compact(kept)[k]) && '\n' !in Compact(kept)[k]
    {
      var j := PresentAt(kept)[k];
      assert kept[j] == KeepLine(pieces[j]);
    }
    Compact(kept)
  }

  /** The normalised lines are exactly the non-blank newline-separated pieces
      of the text, each trimmed, in their original order. */
  lemma NormalizeLinesExact(text: string)
    ensures var pieces := Split(text, '\n');
      var at := PresentAt(KeptPieces(pieces));
      && |NormalizeLines(text)| == |at|
      && (forall k :: 0 <= k < |at| ==> at[k] < |pieces| && NormalizeLines(text)[k] == Trim(pieces[at[k]]))
      && (forall k, l :: 0 <= k < l < |at| ==> at[k] < at[l])
      && (forall j :: 0 <= j < |pieces| ==> (j in at <==> Trim(pieces[j]) != ""))
  {
    CompactPositions(KeptPieces(Split(text, '\n')));
  }

  /** Every piece is either a line of the result or blank. */
  lemma NormalizeLinesCount(text: string)
    ensures |NormalizeLines(text)| + CountAbsent(KeptPieces(Split(text, '\n'))) == |Split(text, '\n')|
  {
    CompactCount(KeptPieces(Split(text, '\n')));
  }

  /** Normalising lines that are already non-empty and trimmed, joined by
      newlines, gives them back. */
  lemma NormalizeJoined(lines: seq<string>)
    requires |lines| >= 1
    requires forall k :: 0 <= k < |lines| ==> lines[k] != "" && IsTrimmed(lines[k]) && '\n' !in lines[k]
    ensures NormalizeLines(Join(lines, "\n")) == lines
  {
    SplitJoin(lines, '\n');
    var kept := KeptPieces(lines);
    forall k | 0 <= k < |lines| ensures kept[k] == Some(lines[k]) {
      TrimTrimmed(lines[k]);
    }
    CompactAllPresent(kept, lines);
  }
}
