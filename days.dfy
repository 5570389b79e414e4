/** The day-letter decoder `getDaysObj` of the teaching-load parser. */
module Days {

  /** The six weekday flags of a schedule (the document dialect has no Sunday). */
  datatype DayMask = DayMask(mon: bool, tue: bool, wed: bool, thu: bool, fri: bool, sat: bool)

  /** The regex test `/T(?!h)/`: some `T` that is not immediately followed by `h`. */
  function HasTue(s: string): (b: bool)
    ensures b <==> exists k :: 0 <= k < |s| && s[k] == 'T' && (k + 1 == |s| || s[k + 1] != 'h')
    decreases |s|
  {
    if s == [] then false
    else if s[0] == 'T' && (|s| == 1 || s[1] != 'h') then true
    else
      var rest := HasTue(s[1..]);
      assert forall k :: 1 <= k < |s| ==> s[k] == s[1..][k - 1];
      rest
  }

  /** The regex test `/Th/`: a `T` immediately followed by `h`. */
  function HasTh(s: string): (b: bool)
    ensures b <==> exists k :: 0 <= k < |s| - 1 && s[k] == 'T' && s[k + 1] == 'h'
    decreases |s|
  {
    if |s| < 2 then false
    else if s[0] == 'T' && s[1] == 'h' then true
    else
      var rest := HasTh(s[1..]);
      assert forall k :: 1 <= k < |s| ==> s[k] == s[1..][k - 1];
      rest
  }

  /** `getDaysObj`: each flag is its own test on the token, so `M`, `W`, `F`
      and `S` are plain letter tests, Tuesday is a `T` not followed by `h`, and
      Thursday is `Th` or a bare `H`. The tests are case-sensitive. */
  function DecodeDays(token: string): DayMask {
    DayMask(
      mon := 'M' in token,
      tue := HasTue(token),
      wed := 'W' in token,
      thu := HasTh(token) || 'H' in token,
      fri := 'F' in token,
      sat := 'S' in token)
  }

  /** Each flag as a test on the token's letters: `M`, `W`, `F` and `S`
      anywhere, Tuesday a `T` with no `h` right after it, Thursday a `Th`
      or any `H`. */
  lemma DecodeDaysFlags(token: string)
    ensures var m := DecodeDays(token);
      && (m.mon <==> exists k :: 0 <= k < |token| && token[k] == 'M')
      && (m.tue <==> exists k :: 0 <= k < |token| && token[k] == 'T' && (k + 1 == |token| || token[k + 1] != 'h'))
      && (m.wed <==> exists k :: 0 <= k < |token| && token[k] == 'W')
      && (m.thu <==> exists k :: 0 <= k < |token| && (token[k] == 'H' || (token[k] == 'T' && k + 1 < |token| && token[k + 1] == 'h')))
      && (m.fri <==> exists k :: 0 <= k < |token| && token[k] == 'F')
      && (m.sat <==> exists k :: 0 <= k < |token| && token[k] == 'S')
  {
  }

  /** The `T` of a `Th` never counts as Tuesday: a token whose every `T` starts
      a `Th` decodes without Tuesday. */
  lemma ThIsNotTuesday(token: string)
    requires forall k :: 0 <= k < |token| && token[k] == 'T' ==> k + 1 < |token| && token[k + 1] == 'h'
    ensures !DecodeDays(token).tue
  {
  }

  /** The decoded mask of the day tokens the documents use. */
  lemma DecodeExamples()
    ensures DecodeDays("MWF") == DayMask(true, false, true, false, true, false)
    ensures DecodeDays("TTh") == DayMask(false, true, false, true, false, false)
    ensures DecodeDays("Th") == DayMask(false, false, false, true, false, false)
    ensures DecodeDays("S") == DayMask(false, false, false, false, false, true)
    ensures DecodeDays("") == DayMask(false, false, false, false, false, false)
  {
    assert "MWF"[0] == 'M' && "MWF"[1] == 'W' && "MWF"[2] == 'F';
    assert "TTh"[0] == 'T' && "TTh"[1] == 'T';
    assert "Th"[0] == 'T' && "Th"[1] == 'h';
  }

  /** One weekday of the mask. */
  datatype Day = Mon | Tue | Wed | Thu | Fri | Sat

  /** The code the documents write for a day. */
  function CodeOf(d: Day): string {
    match d
    case Mon => "M"
    case Tue => "T"
    case Wed => "W"
    case Thu => "Th"
    case Fri => "F"
    case Sat => "S"
  }

  /** The code of a day when its flag is set, nothing otherwise. */
  function Code(flag: bool, d: Day): string {
    if flag then CodeOf(d) else ""
  }

  /** The canonical token of a mask: the day codes of its set flags, in week order. */
  function EncodeDays(m: DayMask): string {
    Code(m.mon, Mon) + Code(m.tue, Tue) + Code(m.wed, Wed)
    + Code(m.thu, Thu) + Code(m.fri, Fri) + Code(m.sat, Sat)
  }

  /** Joining two strings that are not glued across a `T`/`h` boundary
      conserves the Tuesday and `Th` tests. */
  lemma {:induction false} TestsOfConcat(a: string, b: string)
    requires a == [] || b == [] || a[|a| - 1] != 'T' || b[0] != 'h'
    ensures HasTue(a + b) == (HasTue(a) || HasTue(b))
    ensures HasTh(a + b) == (HasTh(a) || HasTh(b))
    decreases |a|
  {
    if a == [] {
      assert a + b == b;
    } else {
      TestsOfConcat(a[1..], b);
      assert (a + b)[1..] == a[1..] + b;
    }
  }

  /** `m` with the flag of `d` also set when `flag` holds. */
  function WithDay(m: DayMask, flag: bool, d: Day): DayMask {
    if !flag then m
    else match d
      case Mon => m.(mon := true)
      case Tue => m.(tue := true)
      case Wed => m.(wed := true)
      case Thu => m.(thu := true)
      case Fri => m.(fri := true)
      case Sat => m.(sat := true)
  }

  /** Appending one day code to a token sets exactly that day's flag. */
  lemma AppendCode(a: string, flag: bool, d: Day)
    ensures DecodeDays(a + Code(flag, d)) == WithDay(DecodeDays(a), flag, d)
  {
    var p := Code(flag, d);
    assert "Th"[0] == 'T' && "Th"[1] == 'h';
    assert p == [] || p[0] != 'h';
    TestsOfConcat(a, p);
    assert forall c :: c in a + p <==> c in a || c in p;
    assert !flag ==> a + p == a;
  }

  /** Decoding the canonical token of a mask gives the mask back: the decoder
      reads every day code exactly as the flag it stands for. */
  lemma DecodeEncode(m: DayMask)
    ensures DecodeDays(EncodeDays(m)) == m
  {
    var a3 := Code(m.mon, Mon) + Code(m.tue, Tue) + Code(m.wed, Wed);
    FirstThreeDays(m);
    var a4 := a3 + Code(m.thu, Thu);
    AppendCode(a3, m.thu, Thu);
    var a5 := a4 + Code(m.fri, Fri);
    AppendCode(a4, m.fri, Fri);
    var a6 := a5 + Code(m.sat, Sat);
    AppendCode(a5, m.sat, Sat);
    assert EncodeDays(m) == a6;
  }

  /** The tokens of Monday to Wednesday decode to those three flags alone. */
  lemma FirstThreeDays(m: DayMask)
    ensures DecodeDays(Code(m.mon, Mon) + Code(m.tue, Tue) + Code(m.wed, Wed))
      == DayMask(m.mon, m.tue, m.wed, false, false, false)
  {
    var a0: string := [];
    assert DecodeDays(a0) == DayMask(false, false, false, false, false, false);
    var a1 := a0 + Code(m.mon, Mon);
    AppendCode(a0, m.mon, Mon);
    var a2 := a1 + Code(m.tue, Tue);
    AppendCode(a1, m.tue, Tue);
    var a3 := a2 + Code(m.wed, Wed);
    AppendCode(a2, m.wed, Wed);
    assert a1 == Code(m.mon, Mon);
  }
}
