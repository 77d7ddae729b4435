/**
 * The text block `save_to_txt` writes for one event (app.py:31-38): seven
 * labelled lines, each ended by a line break, then one empty line.  The parser
 * `ParseRecord` is its inverse and pins down exactly which strings are blocks.
 */
module Mirror {
  import opened Wrappers
  import opened Events
  import opened Decimal

  const IdLabel := "Evento ID: "
  const TitleLabel := "Title: "
  const DescriptionLabel := "Description: "
  const DateLabel := "Date: "
  const TimeLabel := "Time: "
  const LocationLabel := "Location: "
  const CostLabel := "Cost: "

  /** Each line followed by a line break. */
  function JoinLines(ls: seq<string>): string
  {
    if ls == [] then "" else ls[0] + "\n" + JoinLines(ls[1..])
  }

  /** Index of the first line break in `s`, or `|s|` when there is none. */
  function LineEnd(s: string): (i: nat)
    ensures i <= |s| && '\n' !in s[..i]
    ensures i < |s| ==> s[i] == '\n'
  {
    if s == [] || s[0] == '\n' then 0
    else
      var j := LineEnd(s[1..]);
      assert s[..j + 1] == [s[0]] + s[1..][..j];
      1 + j
  }

  /** The lines of `s`; a last line without a line break is kept. */
  function SplitLines(s: string): (ls: seq<string>)
    ensures forall k :: 0 <= k < |ls| ==> '\n' !in ls[k]
    decreases |s|
  {
    if s == [] then []
    else
      var i := LineEnd(s);
      [s[..i]] + (if i < |s| then SplitLines(s[i + 1..]) else [])
  }

  /** The eight lines of the block for event `e` stored under `id`. */
  function RecordLines(id: int, e: Event): seq<string>
  {
    [ IdLabel + DecimalText(id),
      TitleLabel + e.title,
      DescriptionLabel + e.description,
      DateLabel + e.date,
      TimeLabel + e.time,
      LocationLabel + e.location,
      CostLabel + e.cost,
      "" ]
  }

  /** The whole text `save_to_txt` leaves in the file. */
  function RecordText(id: int, e: Event): string
  {
    JoinLines(RecordLines(id, e))
  }

  /** The rest of `line` after `tag`, when `line` starts with it. */
  function StripLabel(tag: string, line: string): (r: Option<string>)
    ensures r.Some? <==> tag <= line
    ensures r.Some? ==> line == tag + r.value
  {
    if tag <= line then Some(line[|tag|..]) else None
  }

  /** Reads the eight lines of a block back into the id and the event. */
  function ParseLines(ls: seq<string>): Option<(int, Event)>
    requires |ls| == 8
  {
    if && ls[7] == ""
       && IdLabel <= ls[0] && TitleLabel <= ls[1] && DescriptionLabel <= ls[2] && DateLabel <= ls[3]
       && TimeLabel <= ls[4] && LocationLabel <= ls[5] && CostLabel <= ls[6]
    then
      match ParseDecimal(ls[0][|IdLabel|..])
      case Some(id) =>
        Some((id, Event(ls[1][|TitleLabel|..], ls[2][|DescriptionLabel|..], ls[3][|DateLabel|..],
                        ls[4][|TimeLabel|..], ls[5][|LocationLabel|..], ls[6][|CostLabel|..])))
      case None => None
    else None
  }

  /** Reads a block back into the id and the event it describes. */
  function ParseRecord(s: string): Option<(int, Event)>
  {
    var ls := SplitLines(s);
    if s == [] || s[|s| - 1] != '\n' || |ls| != 8 then None else ParseLines(ls)
  }

  lemma {:induction false} LineEndAfter(a: string, b: string)
    requires '\n' !in a
    ensures LineEnd(a + "\n" + b) == |a|
    decreases |a|
  {
    var s := a + "\n" + b;
    if a != [] {
      assert s[1..] == a[1..] + "\n" + b;
      LineEndAfter(a[1..], b);
    }
  }

  /** Splitting undoes joining, as long as no line holds a line break. */
  lemma {:induction false} SplitJoinLines(ls: seq<string>)
    requires forall k :: 0 <= k < |ls| ==> '\n' !in ls[k]
    ensures SplitLines(JoinLines(ls)) == ls
    decreases |ls|
  {
    if ls != [] {
      var s := JoinLines(ls);
      var rest := JoinLines(ls[1..]);
      assert s == ls[0] + "\n" + rest;
      LineEndAfter(ls[0], rest);
      assert s[..|ls[0]|] == ls[0];
      assert s[|ls[0]| + 1..] == rest;
      SplitJoinLines(ls[1..]);
      assert ls == [ls[0]] + ls[1..];
    }
  }

  /** Joining undoes splitting for any text that is empty or ends in a line break. */
  lemma {:induction false} JoinSplitLines(s: string)
    requires s == [] || s[|s| - 1] == '\n'
    ensures JoinLines(SplitLines(s)) == s
    decreases |s|
  {
    if s != [] {
      var i := LineEnd(s);
      assert i < |s|;
      var tail := s[i + 1..];
      assert tail == [] || tail[|tail| - 1] == '\n';
      JoinSplitLines(tail);
      var ls := SplitLines(s);
      assert ls == [s[..i]] + SplitLines(tail);
      assert ls[1..] == SplitLines(tail);
      assert s == s[..i] + "\n" + tail;
    }
  }

  lemma PrefixThenRest(tag: string, v: string)
    ensures tag <= tag + v && (tag + v)[|tag|..] == v
  {
  }

  lemma ParseRecordLines(id: int, e: Event)
    ensures ParseLines(RecordLines(id, e)) == Some((id, e))
  {
    PrefixThenRest(IdLabel, DecimalText(id));
    PrefixThenRest(TitleLabel, e.title);
    PrefixThenRest(DescriptionLabel, e.description);
    PrefixThenRest(DateLabel, e.date);
    PrefixThenRest(TimeLabel, e.time);
    PrefixThenRest(LocationLabel, e.location);
    PrefixThenRest(CostLabel, e.cost);
    ParseDecimalText(id);
  }

  lemma LinesOfParse(ls: seq<string>, id: int, e: Event)
    requires |ls| == 8 && ParseLines(ls) == Some((id, e))
    ensures ls == RecordLines(id, e)
  {
    DecimalTextOfParse(ls[0][|IdLabel|..]);
    assert ls[0] == IdLabel + ls[0][|IdLabel|..];
    assert ls[1] == TitleLabel + ls[1][|TitleLabel|..];
    assert ls[2] == DescriptionLabel + ls[2][|DescriptionLabel|..];
    assert ls[3] == DateLabel + ls[3][|DateLabel|..];
    assert ls[4] == TimeLabel + ls[4][|TimeLabel|..];
    assert ls[5] == LocationLabel + ls[5][|LocationLabel|..];
    assert ls[6] == CostLabel + ls[6][|CostLabel|..];
  }

  lemma RecordTextEndsWithBlankLine(id: int, e: Event)
    ensures RecordText(id, e) == JoinLines(RecordLines(id, e)[..7]) + "\n"
  {
    var ls := RecordLines(id, e);
    assert ls == ls[..7] + [""];
    JoinLinesAppend(ls[..7], [""]);
  }

  /** Parsing a block gives back the id and the event it was written from. */
  lemma ParseRecordText(id: int, e: Event)
    requires SingleLine(e)
    ensures ParseRecord(RecordText(id, e)) == Some((id, e))
  {
    var ls := RecordLines(id, e);
    var s := RecordText(id, e);
    RecordLinesSingle(id, e);
    SplitJoinLines(ls);
    assert SplitLines(s) == ls;
    RecordTextEndsWithBlankLine(id, e);
    assert s != [] && s[|s| - 1] == '\n';
    ParseRecordLines(id, e);
  }

  /** Whatever the parser accepts is the block of what it returns. */
  lemma RecordTextOfParse(s: string, id: int, e: Event)
    requires ParseRecord(s) == Some((id, e))
    ensures SingleLine(e) && s == RecordText(id, e)
  {
    var ls := SplitLines(s);
    LinesOfParse(ls, id, e);
    JoinSplitLines(s);
    assert '\n' !in ls[1] && '\n' !in ls[2] && '\n' !in ls[3];
    assert '\n' !in ls[4] && '\n' !in ls[5] && '\n' !in ls[6];
    NoBreakInRest(TitleLabel, e.title);
    NoBreakInRest(DescriptionLabel, e.description);
    NoBreakInRest(DateLabel, e.date);
    NoBreakInRest(TimeLabel, e.time);
    NoBreakInRest(LocationLabel, e.location);
    NoBreakInRest(CostLabel, e.cost);
  }

  lemma RecordLinesSingle(id: int, e: Event)
    requires SingleLine(e)
    ensures forall k :: 0 <= k < |RecordLines(id, e)| ==> '\n' !in RecordLines(id, e)[k]
  {
  }

  lemma NoBreakInRest(tag: string, v: string)
    requires '\n' !in tag + v
    ensures '\n' !in v
  {
  }

  /** A block is exactly what the parser accepts: parsing yields `(id, e)` if and only if the
      text is the block of `e` under `id` and no attribute of `e` holds a line break. */
  lemma ParseRecordIff(s: string, id: int, e: Event)
    ensures ParseRecord(s) == Some((id, e)) <==> SingleLine(e) && s == RecordText(id, e)
  {
    if SingleLine(e) && s == RecordText(id, e) {
      ParseRecordText(id, e);
    }
    if ParseRecord(s) == Some((id, e)) {
      RecordTextOfParse(s, id, e);
    }
  }

  lemma {:induction false} JoinLinesAppend(xs: seq<string>, ys: seq<string>)
    ensures JoinLines(xs + ys) == JoinLines(xs) + JoinLines(ys)
    decreases |xs|
  {
    if xs == [] {
      assert xs + ys == ys;
    } else {
      assert (xs + ys)[0] == xs[0];
      assert (xs + ys)[1..] == xs[1..] + ys;
      JoinLinesAppend(xs[1..], ys);
      calc {
        JoinLines(xs + ys);
        xs[0] + "\n" + JoinLines(xs[1..] + ys);
        xs[0] + "\n" + (JoinLines(xs[1..]) + JoinLines(ys));
        (xs[0] + "\n" + JoinLines(xs[1..])) + JoinLines(ys);
      }
    }
  }

  /** Writing one more line onto the first `k` lines. */
  lemma JoinLinesSnoc(ls: seq<string>, k: nat)
    requires k < |ls|
    ensures JoinLines(ls[..k + 1]) == JoinLines(ls[..k]) + (ls[k] + "\n")
  {
    assert ls[..k + 1] == ls[..k] + [ls[k]];
    JoinLinesAppend(ls[..k], [ls[k]]);
    assert [ls[k]][1..] == [];
  }

  /** Eight lines joined: each followed by its line break, left to right. */
  lemma JoinEightLines(ls: seq<string>)
    requires |ls| == 8
    ensures JoinLines(ls)
      == (ls[0] + "\n") + (ls[1] + "\n") + (ls[2] + "\n") + (ls[3] + "\n")
       + (ls[4] + "\n") + (ls[5] + "\n") + (ls[6] + "\n") + (ls[7] + "\n")
  {
    assert JoinLines(ls[..1]) == ls[0] + "\n" by {
      JoinLinesSnoc(ls, 0);
      assert ls[..0] == [];
    }
    assert JoinLines(ls[..2]) == JoinLines(ls[..1]) + (ls[1] + "\n") by {
      JoinLinesSnoc(ls, 1);
    }
    assert JoinLines(ls[..3]) == JoinLines(ls[..2]) + (ls[2] + "\n") by {
      JoinLinesSnoc(ls, 2);
    }
    assert JoinLines(ls[..4]) == JoinLines(ls[..3]) + (ls[3] + "\n") by {
      JoinLinesSnoc(ls, 3);
    }
    assert JoinLines(ls[..5]) == JoinLines(ls[..4]) + (ls[4] + "\n") by {
      JoinLinesSnoc(ls, 4);
    }
    assert JoinLines(ls[..6]) == JoinLines(ls[..5]) + (ls[5] + "\n") by {
      JoinLinesSnoc(ls, 5);
    }
    assert JoinLines(ls[..7]) == JoinLines(ls[..6]) + (ls[6] + "\n") by {
      JoinLinesSnoc(ls, 6);
    }
    assert JoinLines(ls[..8]) == JoinLines(ls[..7]) + (ls[7] + "\n") by {
      JoinLinesSnoc(ls, 7);
    }
    assert ls[..8] == ls;
  }

  /** The block spelled out as the eight writes of `save_to_txt`: the id, title,
      description, date, time, location and cost lines in that order, each ended by a line
      break, then one blank line. */
  lemma RecordTextIsSevenLinesAndBlank(id: int, e: Event)
    ensures RecordText(id, e)
      == (IdLabel + DecimalText(id) + "\n")
       + (TitleLabel + e.title + "\n")
       + (DescriptionLabel + e.description + "\n")
       + (DateLabel + e.date + "\n")
       + (TimeLabel + e.time + "\n")
       + (LocationLabel + e.location + "\n")
       + (CostLabel + e.cost + "\n")
       + "\n"
  {
    JoinEightLines(RecordLines(id, e));
    assert "" + "\n" == "\n";
  }
}
