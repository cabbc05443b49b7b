/** Task ids on the command line: `1,2:5,9` and `0:10:3`. */
module TaskIdsParser {
  import opened Lists
  import opened Text

  datatype Part =
    | Blank
    | One(id: TaskId)
    | Range(first: TaskId, last: TaskId)
    | Stepped(first: TaskId, last: TaskId, step: nat)

  /** `Wraps` is not an error message of the parser: its step loop then adds past the largest
      machine word, which a debug build refuses and a release build does modulo 2^64. */
  datatype ParseError = BadId | BadStart | BadEnd | BadStep | ZeroStep | StartAfterEnd | BadFormat | Wraps

  datatype Result<+T> = Ok(value: T) | Err(error: ParseError)

  predicate Denotes(part: Part, x: TaskId) {
    match part
    case Blank => false
    case One(id) => x == id
    case Range(first, last) => first <= x <= last
    case Stepped(first, last, step) => step > 0 && first <= x <= last && (x - first) % step == 0
  }

  function LastId(part: Part): TaskId {
    match part
    case Blank => 0
    case One(id) => id
    case Range(_, last) => last
    case Stepped(_, last, _) => last
  }

  /** The ids a part stands for. */
  function Ids(part: Part): (ids: set<TaskId>)
    ensures forall x :: x in ids <==> Denotes(part, x)
  {
    set x: TaskId | x <= LastId(part) && Denotes(part, x)
  }

  /** The first number of the progression beyond its end. */
  function PastEnd(first: nat, last: nat, step: nat): nat
    requires first <= last && step > 0
  {
    first + ((last - first) / step + 1) * step
  }

  predicate Legal(part: Part) {
    match part
    case Range(first, last) => first <= last
    case Stepped(first, last, step) => step > 0 && first <= last && PastEnd(first, last, step) <= USIZE_MAX
    case _ => true
  }

  /** How a part may be written: numbers with white space around them, colons in between. */
  ghost predicate Writes(field: string, part: Part) {
    match part
    case Blank => Text.Blank(field)
    case One(id) => WritesNumber(field, id)
    case Range(first, last) =>
      exists f, g :: field == f + ":" + g && WritesNumber(f, first) && WritesNumber(g, last)
    case Stepped(first, last, step) =>
      exists f, g, h :: field == f + ":" + (g + ":" + h) &&
        WritesNumber(f, first) && WritesNumber(g, last) && WritesNumber(h, step)
  }

  ghost predicate WritesNumber(field: string, n: nat) {
    exists lead, numeral, tail ::
      field == lead + numeral + tail && Text.Blank(lead) && Text.Blank(tail) && ParseUsize(numeral) == Some(n)
  }

  lemma NumberIsTrimmed(field: string, n: nat)
    ensures WritesNumber(field, n) <==> ParseUsize(Trim(field)) == Some(n)
  {
    var lead, tail := TrimShape(field);
    if WritesNumber(field, n) {
      var a, numeral, b :| field == a + numeral + b && Text.Blank(a) && Text.Blank(b) && ParseUsize(numeral) == Some(n);
      TrimIgnoresPadding(a, numeral, b);
      NumeralCharacters(numeral);
    }
  }

  /** The reading of a number, with the complaint if there is none. */
  function Number(field: string, complaint: ParseError): Result<TaskId> {
    match ParseUsize(Trim(field))
    case Some(n) => Ok(n)
    case None => Err(complaint)
  }

  function ReadRange(text: string): Result<Part> {
    var fields := Split(text, ':');
    if |fields| == 2 then
      match Number(fields[0], BadStart)
      case Err(e) => Err(e)
      case Ok(first) =>
        match Number(fields[1], BadEnd)
        case Err(e) => Err(e)
        case Ok(last) => if first > last then Err(StartAfterEnd) else Ok(Range(first, last))
    else if |fields| == 3 then
      match Number(fields[0], BadStart)
      case Err(e) => Err(e)
      case Ok(first) =>
        match Number(fields[1], BadEnd)
        case Err(e) => Err(e)
        case Ok(last) =>
          match Number(fields[2], BadStep)
          case Err(e) => Err(e)
          case Ok(step) =>
            if step == 0 then Err(ZeroStep)
            else if first > last then Err(StartAfterEnd)
            else if PastEnd(first, last, step) > USIZE_MAX then Err(Wraps)
            else Ok(Stepped(first, last, step))
    else Err(BadFormat)
  }

  function ReadPart(field: string): Result<Part> {
    var text := Trim(field);
    if text == "" then Ok(Blank)
    else if ':' in text then ReadRange(text)
    else match ParseUsize(text) case Some(id) => Ok(One(id)) case None => Err(BadId)
  }

  lemma NumberFieldHasNoColon(field: string, n: nat)
    requires WritesNumber(field, n)
    ensures ':' !in field && Trim(field) != ""
  {
    hide Trim, ParseUsize;
    var a, numeral, b :| field == a + numeral + b && Text.Blank(a) && Text.Blank(b) && ParseUsize(numeral) == Some(n);
    NumeralCharacters(numeral);
    NumberIsTrimmed(field, n);
    NumeralCharacters(Trim(field));
  }

  /** Trimming twice, or first on one side only, makes no difference to a number. */
  lemma TrimStartThenNumber(field: string)
    ensures Trim(TrimStart(field)) == Trim(field)
  {
    var lead := TrimStartShape(field);
    TrimIgnoresPadding(lead, TrimStart(field), "");
    assert lead + TrimStart(field) + "" == field;
  }

  lemma TrimEndThenNumber(field: string)
    ensures Trim(TrimEnd(field)) == Trim(field)
  {
    var tail := TrimEndShape(field);
    TrimIgnoresPadding("", TrimEnd(field), tail);
    assert "" + TrimEnd(field) + tail == field;
  }

  lemma SplitTwo(f: string, g: string)
    requires ':' !in f && ':' !in g
    ensures Split(f + ":" + g, ':') == [f, g]
  {
    hide Split;
    SplitJoin([f, g], ':');
    assert [f, g][1..] == [g];
  }

  lemma SplitThree(f: string, g: string, h: string)
    requires ':' !in f && ':' !in g && ':' !in h
    ensures Split(f + ":" + (g + ":" + h), ':') == [f, g, h]
  {
    hide Split;
    SplitJoin([f, g, h], ':');
    assert [f, g, h][1..] == [g, h];
    assert [g, h][1..] == [h];
    assert Join([g, h], ':') == g + ":" + h;
  }

  lemma TrimmedRange(f: string, g: string)
    ensures Trim(f + ":" + g) == TrimStart(f) + ":" + TrimEnd(g)
  {
    TrimStartOver(f, ':', g);
    TrimEndOver(TrimStart(f), ':', g);
  }

  lemma WrittenRangeIsRead(field: string, part: Part)
    requires part.Range? && Writes(field, part) && Legal(part)
    ensures ReadPart(field) == Ok(part)
  {
    hide Split, Trim, TrimStart, TrimEnd, ParseUsize, WritesNumber;
    var f, g :| field == f + ":" + g && WritesNumber(f, part.first) && WritesNumber(g, part.last);
    NumberFieldHasNoColon(f, part.first);
    NumberFieldHasNoColon(g, part.last);
    NumberIsTrimmed(f, part.first);
    NumberIsTrimmed(g, part.last);
    TrimmedRange(f, g);
    TrimStartThenNumber(f);
    TrimEndThenNumber(g);
    var lead := TrimStartShape(f);
    var tail := TrimEndShape(g);
    SplitTwo(TrimStart(f), TrimEnd(g));
    assert Trim(field)[|TrimStart(f)|] == ':';
  }

  lemma TrimmedStep(f: string, g: string, h: string)
    ensures Trim(f + ":" + (g + ":" + h)) == TrimStart(f) + ":" + (g + ":" + TrimEnd(h))
  {
    TrimmedRange(f, g + ":" + h);
    TrimEndOver(g, ':', h);
  }

  lemma WrittenStepIsRead(field: string, part: Part)
    requires part.Stepped? && Writes(field, part) && Legal(part)
    ensures ReadPart(field) == Ok(part)
  {
    hide Split, Trim, TrimStart, TrimEnd, ParseUsize, WritesNumber;
    var f, g, h :| field == f + ":" + (g + ":" + h)
      && WritesNumber(f, part.first) && WritesNumber(g, part.last) && WritesNumber(h, part.step);
    NumberFieldHasNoColon(f, part.first);
    NumberFieldHasNoColon(g, part.last);
    NumberFieldHasNoColon(h, part.step);
    NumberIsTrimmed(f, part.first);
    NumberIsTrimmed(g, part.last);
    NumberIsTrimmed(h, part.step);
    TrimmedStep(f, g, h);
    TrimStartThenNumber(f);
    TrimEndThenNumber(h);
    var lead := TrimStartShape(f);
    var tail := TrimEndShape(h);
    SplitThree(TrimStart(f), g, TrimEnd(h));
    assert Trim(field)[|TrimStart(f)|] == ':';
  }

  lemma ReadRangeWasWritten(field: string, part: Part)
    requires Trim(field) != "" && ':' in Trim(field) && ReadPart(field) == Ok(part)
    ensures Writes(field, part) && Legal(part)
  {
    hide Split, Trim, ParseUsize, WritesNumber;
    var lead, tail := TrimShape(field);
    var text := Trim(field);
    var fields := Split(text, ':');
    JoinSplit(text, ':');
    if |fields| == 2 {
      var f, g := lead + fields[0], fields[1] + tail;
      assert fields[1..] == [fields[1]];
      assert field == f + ":" + g;
      PaddedNumber(lead, fields[0], "", part.first);
      assert f + "" == f;
      PaddedNumber("", fields[1], tail, part.last);
      assert "" + g == g && "" + fields[1] + tail == g;
    } else {
      var f, g, h := lead + fields[0], fields[1], fields[2] + tail;
      assert fields[1..] == [g, fields[2]];
      assert [g, fields[2]][1..] == [fields[2]];
      assert Join([g, fields[2]], ':') == g + [':'] + fields[2];
      assert field == f + ":" + (g + ":" + h);
      PaddedNumber(lead, fields[0], "", part.first);
      assert f + "" == f;
      NumberIsTrimmed(g, part.last);
      PaddedNumber("", fields[2], tail, part.step);
      assert "" + fields[2] + tail == h;
    }
  }

  lemma PaddedNumber(lead: string, field: string, tail: string, n: nat)
    requires Text.Blank(lead) && Text.Blank(tail) && ParseUsize(Trim(field)) == Some(n)
    ensures WritesNumber(lead + field + tail, n)
  {
    TrimIgnoresPadding(lead, field, tail);
    NumberIsTrimmed(lead + field + tail, n);
  }

  /** The reader accepts exactly the legal parts of the notation, and reads each as written. */
  lemma ReadsWhatIsWritten(field: string, part: Part)
    ensures ReadPart(field) == Ok(part) <==> Writes(field, part) && Legal(part)
  {
    var lead, tail := TrimShape(field);
    var text := Trim(field);
    TrimIgnoresPadding("", text, "");
    assert "" + text + "" == text;
    if Writes(field, part) && Legal(part) {
      match part
      case Blank =>
        assert field == field + "" + "";
        TrimIgnoresPadding(field, "", "");
      case One(id) =>
        NumberIsTrimmed(field, id);
        NumberFieldHasNoColon(field, id);
      case Range(_, _) => WrittenRangeIsRead(field, part);
      case Stepped(_, _, _) => WrittenStepIsRead(field, part);
    }
    if ReadPart(field) == Ok(part) {
      if text == "" {
      } else if ':' in text {
        ReadRangeWasWritten(field, part);
      } else {
        NumberIsTrimmed(field, part.id);
      }
    }
  }

  /** Multiples of the step up to a distance: as many as the quotient says. */
  lemma MultipleBelow(i: nat, d: nat, step: nat)
    requires step > 0
    ensures i * step <= d <==> i <= d / step
  {
    if i <= d / step {
      assert i * step <= (d / step) * step;
    } else {
      assert i * step >= (d / step + 1) * step;
    }
  }

  /** As long as a term is within the end, the one after it is no later than the first beyond. */
  lemma NextTerm(n: nat, first: TaskId, last: TaskId, step: nat)
    requires step > 0 && first + n * step <= last
    ensures n <= (last - first) / step && first + n * step + step <= PastEnd(first, last, step)
  {
    MultipleBelow(n, last - first, step);
    assert (n + 1) * step <= ((last - first) / step + 1) * step;
  }

  lemma TermBeyond(n: nat, first: TaskId, last: TaskId, step: nat)
    requires step > 0 && first <= last < first + n * step && n <= (last - first) / step + 1
    ensures n == (last - first) / step + 1 && first + n * step == PastEnd(first, last, step)
  {
    MultipleBelow(n, last - first, step);
  }

  lemma TermIsInPart(j: nat, first: TaskId, last: TaskId, step: nat)
    requires step > 0 && first <= last && j <= (last - first) / step
    ensures Denotes(Stepped(first, last, step), first + j * step)
  {
    MultipleBelow(j, last - first, step);
    MultipleOf(j, step);
  }

  lemma DivMod(x: nat, step: nat)
    requires step > 0
    ensures x == x / step * step + x % step
  {
  }

  lemma MultipleOf(j: nat, step: nat)
    requires step > 0
    ensures (j * step) % step == 0
  {
    var x := j * step;
    DivMod(x, step);
    MultipleBelow(j, x, step);
    MultipleBelow(j + 1, x, step);
    assert x / step == j;
  }

  lemma MemberIsTerm(x: TaskId, first: TaskId, last: TaskId, step: nat) returns (j: nat)
    requires step > 0 && first <= last && Denotes(Stepped(first, last, step), x)
    ensures j <= (last - first) / step && x == first + j * step
  {
    j := (x - first) / step;
    MultipleBelow(j, last - first, step);
  }

  ghost predicate Terms(ids: seq<TaskId>, first: TaskId, step: nat) {
    forall j :: 0 <= j < |ids| ==> ids[j] == first + j * step
  }

  lemma DistributeStep(a: nat, b: nat, step: nat)
    ensures (a + b) * step == a * step + b * step
  {
  }

  lemma TermsIncrease(ids: seq<TaskId>, first: TaskId, step: nat)
    requires step > 0 && Terms(ids, first, step)
    ensures StrictlySorted(ids)
  {
    forall i, j | 0 <= i < j < |ids| ensures ids[i] < ids[j] {
      DistributeStep(i, j - i, step);
    }
  }

  /** The terms of the progression up to its end are exactly the ids of the part. */
  lemma ProgressionIsPart(ids: seq<TaskId>, first: TaskId, last: TaskId, step: nat)
    requires step > 0 && first <= last && |ids| == (last - first) / step + 1 && Terms(ids, first, step)
    ensures ids == SortedSeq(Ids(Stepped(first, last, step)))
  {
    hide Denotes, StrictlySorted;
    var part := Stepped(first, last, step);
    TermsIncrease(ids, first, step);
    forall x: TaskId ensures x in ids <==> x in Ids(part) {
      if x in ids {
        var j :| 0 <= j < |ids| && ids[j] == x;
        TermIsInPart(j, first, last, step);
      }
      if x in Ids(part) {
        var j := MemberIsTerm(x, first, last, step);
        assert ids[j] == x;
      }
    }
    SortedUnique(ids, SortedSeq(Ids(part)));
  }

  /** The step loop: every term up to the end, or the wrap it runs into right after the last. */
  method StepThrough(first: TaskId, last: TaskId, step: nat) returns (r: Result<seq<TaskId>>)
    requires first <= last <= USIZE_MAX && 0 < step <= USIZE_MAX
    ensures PastEnd(first, last, step) <= USIZE_MAX ==> r == Ok(SortedSeq(Ids(Stepped(first, last, step))))
    ensures PastEnd(first, last, step) > USIZE_MAX ==> r == Err(Wraps)
  {
    var ids: seq<TaskId> := [];
    var current := first;
    while current <= last
      invariant current == first + |ids| * step && current <= USIZE_MAX
      invariant Terms(ids, first, step)
      invariant |ids| <= (last - first) / step + 1
      decreases last + step - current
    {
      NextTerm(|ids|, first, last, step);
      ids := ids + [current];
      if current + step > USIZE_MAX {
        return Err(Wraps);
      }
      current := current + step;
    }
    TermBeyond(|ids|, first, last, step);
    ProgressionIsPart(ids, first, last, step);
    r := Ok(ids);
  }

  /** The field writes some number that fits a machine word. */
  ghost predicate IsNumber(field: string) {
    exists n :: WritesNumber(field, n)
  }

  lemma NumberIff(field: string, complaint: ParseError)
    ensures Number(field, complaint).Ok? <==> IsNumber(field)
    ensures forall n: nat :: Number(field, complaint) == Ok(n) <==> WritesNumber(field, n)
    ensures Number(field, complaint).Err? ==> Number(field, complaint).error == complaint
  {
    hide Trim, ParseUsize, WritesNumber;
    forall n: nat ensures ParseUsize(Trim(field)) == Some(n) <==> WritesNumber(field, n) {
      NumberIsTrimmed(field, n);
    }
    assert ParseUsize(Trim(field)).Some? ==> WritesNumber(field, ParseUsize(Trim(field)).value);
  }

  /** Which complaint a range draws, in terms of what its fields write. */
  lemma RangeComplaints(text: string)
    ensures var fields, answer := Split(text, ':'), ReadRange(text);
      && (answer == Err(BadFormat) <==> |fields| != 2 && |fields| != 3)
      && (|fields| == 2 || |fields| == 3 ==>
            && (answer == Err(BadStart) <==> !IsNumber(fields[0]))
            && (answer == Err(BadEnd) <==> IsNumber(fields[0]) && !IsNumber(fields[1]))
            && (answer == Err(BadStep) <==>
                  IsNumber(fields[0]) && IsNumber(fields[1]) && |fields| == 3 && !IsNumber(fields[2]))
            && (answer == Err(ZeroStep) <==>
                  IsNumber(fields[0]) && IsNumber(fields[1]) && |fields| == 3 && WritesNumber(fields[2], 0))
            && (answer == Err(StartAfterEnd) <==>
                  && (exists a, b :: WritesNumber(fields[0], a) && WritesNumber(fields[1], b) && a > b)
                  && (|fields| == 3 ==> exists k :: WritesNumber(fields[2], k) && k > 0)))
  {
    hide Split, WritesNumber, Number, IsNumber;
    var fields := Split(text, ':');
    if |fields| == 2 || |fields| == 3 {
      NumberIff(fields[0], BadStart);
      NumberIff(fields[1], BadEnd);
      if |fields| == 3 { NumberIff(fields[2], BadStep); }
    }
  }

  // -- the step loop of a release build ---------------------------------------------------------------------

  const WORDS := USIZE_MAX + 1

  /** How many rounds it takes to pass the end of the range. */
  function Rounds(first: TaskId, last: TaskId, step: nat): nat
    requires first <= last && step > 0
  {
    (last - first) / step + 1
  }

  /** What the loop variable holds in round `i` when additions wrap around. */
  function WrappedTerm(first: TaskId, step: nat, i: nat): TaskId {
    (first + i * step) % WORDS
  }

  /** The loop is left after `n` rounds. */
  ghost predicate LeavesAfter(first: TaskId, last: TaskId, step: nat, n: nat) {
    WrappedTerm(first, step, n) > last && forall i :: 0 <= i < n ==> WrappedTerm(first, step, i) <= last
  }

  ghost function Collected(first: TaskId, step: nat, n: nat): set<TaskId> {
    set i | 0 <= i < n :: WrappedTerm(first, step, i)
  }

  lemma WrapOnce(x: nat)
    ensures x < WORDS ==> x % WORDS == x
    ensures WORDS <= x < 2 * WORDS ==> x % WORDS == x - WORDS
    ensures (x + WORDS) % WORDS == x % WORDS
  {
  }

  lemma UnwrappedTerm(first: TaskId, last: TaskId, step: nat, i: nat)
    requires first <= last <= USIZE_MAX && step > 0 && i <= (last - first) / step
    ensures WrappedTerm(first, step, i) == first + i * step <= last
  {
    MultipleBelow(i, last - first, step);
    WrapOnce(first + i * step);
  }

  lemma NextTermAtQuotient(first: TaskId, last: TaskId, step: nat)
    requires first <= last && step > 0
    ensures last < PastEnd(first, last, step) <= last + step
  {
    var q := (last - first) / step;
    MultipleBelow(q, last - first, step);
    MultipleBelow(q + 1, last - first, step);
    assert (q + 1) * step == q * step + step;
  }

  lemma SameAfterPeriod(first: TaskId, step: nat, period: nat, i: nat)
    requires period * step == WORDS && period <= i
    ensures WrappedTerm(first, step, i) == WrappedTerm(first, step, i - period)
  {
    DistributeStep(i - period, period, step);
    WrapOnce(first + (i - period) * step);
  }

  /** If the first wrapped value belongs to the part, the step divides the range of machine words,
      the values repeat before they leave the range, and the loop goes on for ever. */
  lemma {:induction false} RepeatsForEver(first: TaskId, last: TaskId, step: nat, period: nat, i: nat)
    requires first <= last <= USIZE_MAX && step > 0
    requires period * step == WORDS && period <= Rounds(first, last, step)
    ensures WrappedTerm(first, step, i) <= last
  {
    hide WrappedTerm, Rounds;
    if i < Rounds(first, last, step) {
      EarlyRound(first, last, step, i);
    } else {
      SameAfterPeriod(first, step, period, i);
      PeriodPositive(period, step);
      RepeatsForEver(first, last, step, period, i - period);
    }
  }

  lemma EarlyRound(first: TaskId, last: TaskId, step: nat, i: nat)
    requires first <= last <= USIZE_MAX && step > 0 && i < Rounds(first, last, step)
    ensures WrappedTerm(first, step, i) <= last
  {
    UnwrappedTerm(first, last, step, i);
  }

  lemma PeriodPositive(period: nat, step: nat)
    requires period * step == WORDS
    ensures period > 0
  {
  }

  lemma WrappedMember(first: TaskId, last: TaskId, step: nat) returns (period: nat)
    requires first <= last <= USIZE_MAX && 0 < step <= USIZE_MAX && PastEnd(first, last, step) > USIZE_MAX
    requires Denotes(Stepped(first, last, step), PastEnd(first, last, step) - WORDS)
    ensures period * step == WORDS && period <= Rounds(first, last, step)
  {
    var m := Rounds(first, last, step);
    NextTermAtQuotient(first, last, step);
    var q := MemberIsTerm(PastEnd(first, last, step) - WORDS, first, last, step);
    period := m - q;
    assert period * step == m * step - q * step;
  }

  /** All values of the rounds before the end of the range is passed. */
  lemma EarlyRounds(first: TaskId, last: TaskId, step: nat)
    requires first <= last <= USIZE_MAX && 0 < step <= USIZE_MAX
    ensures forall i :: 0 <= i < Rounds(first, last, step) ==> WrappedTerm(first, step, i) <= last
    ensures Collected(first, step, Rounds(first, last, step)) == Ids(Stepped(first, last, step))
  {
    hide Denotes, WrappedTerm;
    var ids := seq(Rounds(first, last, step), i requires 0 <= i => WrappedTerm(first, step, i));
    forall i | 0 <= i < |ids| ensures WrappedTerm(first, step, i) == first + i * step <= last {
      UnwrappedTerm(first, last, step, i);
    }
    ProgressionIsPart(ids, first, last, step);
    CollectedInOrder(first, step, ids);
  }

  lemma CollectedInOrder(first: TaskId, step: nat, ids: seq<TaskId>)
    requires forall i :: 0 <= i < |ids| ==> ids[i] == WrappedTerm(first, step, i)
    ensures forall x: TaskId :: x in Collected(first, step, |ids|) <==> x in ids
  {
    hide WrappedTerm;
    forall x: TaskId | x in ids ensures x in Collected(first, step, |ids|) {
      var i :| 0 <= i < |ids| && ids[i] == x;
      assert WrappedTerm(first, step, i) == x;
    }
  }

  lemma LastRound(first: TaskId, last: TaskId, step: nat)
    requires first <= last <= USIZE_MAX && 0 < step <= USIZE_MAX && PastEnd(first, last, step) <= USIZE_MAX
    ensures WrappedTerm(first, step, Rounds(first, last, step)) > last
  {
    NextTermAtQuotient(first, last, step);
    WrapOnce(first + Rounds(first, last, step) * step);
  }

  lemma WrappedIsWrong(first: TaskId, last: TaskId, step: nat, n: nat)
    requires first <= last <= USIZE_MAX && 0 < step <= USIZE_MAX && PastEnd(first, last, step) > USIZE_MAX
    requires LeavesAfter(first, last, step, n)
    ensures Collected(first, step, n) != Ids(Stepped(first, last, step))
  {
    hide WrappedTerm, Denotes, PastEnd, Rounds;
    var m := Rounds(first, last, step);
    EarlyRounds(first, last, step);
    WrapsInside(first, last, step);
    assert m < n;
    assert WrappedTerm(first, step, m) in Collected(first, step, n);
    if WrappedTerm(first, step, m) in Ids(Stepped(first, last, step)) {
      WrappedInsideRepeats(first, last, step, n);
    }
  }

  /** The first term beyond the end, if it wraps, comes out below the end. */
  lemma WrapsInside(first: TaskId, last: TaskId, step: nat)
    requires first <= last <= USIZE_MAX && 0 < step <= USIZE_MAX && PastEnd(first, last, step) > USIZE_MAX
    ensures WrappedTerm(first, step, Rounds(first, last, step)) == PastEnd(first, last, step) - WORDS <= last
  {
    NextTermAtQuotient(first, last, step);
    WrapOnce(first + Rounds(first, last, step) * step);
  }

  lemma WrappedInsideRepeats(first: TaskId, last: TaskId, step: nat, n: nat)
    requires first <= last <= USIZE_MAX && 0 < step <= USIZE_MAX && PastEnd(first, last, step) > USIZE_MAX
    requires Denotes(Stepped(first, last, step), PastEnd(first, last, step) - WORDS)
    ensures WrappedTerm(first, step, n) <= last
  {
    var period := WrappedMember(first, last, step);
    RepeatsForEver(first, last, step, period, n);
  }

  /** Even where additions wrap around, the loop comes to an end with the right set exactly when it
      does not wrap. */
  lemma ReleaseLoopRightIff(first: TaskId, last: TaskId, step: nat)
    requires first <= last <= USIZE_MAX && 0 < step <= USIZE_MAX
    ensures (exists n :: LeavesAfter(first, last, step, n) &&
                         Collected(first, step, n) == Ids(Stepped(first, last, step))) <==>
            PastEnd(first, last, step) <= USIZE_MAX
  {
    hide WrappedTerm, Denotes, PastEnd, Rounds, Collected, Ids;
    if PastEnd(first, last, step) <= USIZE_MAX {
      EarlyRounds(first, last, step);
      LastRound(first, last, step);
      assert LeavesAfter(first, last, step, Rounds(first, last, step));
    } else if n :| LeavesAfter(first, last, step, n) && Collected(first, step, n) == Ids(Stepped(first, last, step)) {
      WrappedIsWrong(first, last, step, n);
    }
  }

  method ParseRange(text: string) returns (r: Result<seq<TaskId>>)
    ensures r == match ReadRange(text) case Err(e) => Err(e) case Ok(part) => Ok(SortedSeq(Ids(part)))
  {
    var parts := Split(text, ':');
    if |parts| == 2 {
      var start := Number(parts[0], BadStart);
      if start.Err? { return Err(start.error); }
      var end := Number(parts[1], BadEnd);
      if end.Err? { return Err(end.error); }
      if start.value > end.value { return Err(StartAfterEnd); }
      var ids := seq(end.value - start.value + 1, i requires 0 <= i => start.value + i);
      SortedUnique(ids, SortedSeq(Ids(Range(start.value, end.value)))) by {
        RangeMembers(ids, start.value, end.value);
      }
      return Ok(ids);
    } else if |parts| == 3 {
      var start := Number(parts[0], BadStart);
      if start.Err? { return Err(start.error); }
      var end := Number(parts[1], BadEnd);
      if end.Err? { return Err(end.error); }
      var step := Number(parts[2], BadStep);
      if step.Err? { return Err(step.error); }
      if step.value == 0 { return Err(ZeroStep); }
      if start.value > end.value { return Err(StartAfterEnd); }
      r := StepThrough(start.value, end.value, step.value);
    } else {
      r := Err(BadFormat);
    }
  }

  lemma RangeMembers(ids: seq<TaskId>, first: TaskId, last: TaskId)
    requires first <= last && |ids| == last - first + 1
    requires forall i :: 0 <= i < |ids| ==> ids[i] == first + i
    ensures StrictlySorted(ids) && forall x :: x in ids <==> x in Ids(Range(first, last))
  {
    forall x: TaskId | Denotes(Range(first, last), x) ensures x in ids {
      assert ids[x - first] == x;
    }
  }

  /** The ids of all parts together, or the first complaint from the left. */
  function ReadAll(fields: seq<string>): Result<set<TaskId>> {
    if fields == [] then Ok({})
    else
      match ReadAll(fields[..|fields| - 1])
      case Err(e) => Err(e)
      case Ok(ids) =>
        match ReadPart(fields[|fields| - 1])
        case Err(e) => Err(e)
        case Ok(part) => Ok(ids + Ids(part))
  }

  lemma {:induction false} FirstErrorWins(fields: seq<string>, n: nat)
    requires n <= |fields| && ReadAll(fields[..n]).Err?
    ensures ReadAll(fields) == ReadAll(fields[..n])
  {
    if n == |fields| {
      assert fields[..n] == fields;
    } else {
      assert fields[..|fields| - 1][..n] == fields[..n];
      FirstErrorWins(fields[..|fields| - 1], n);
    }
  }

  lemma BlankInput(input: string)
    requires Trim(input) == ""
    ensures ReadAll(Split(input, ',')) == Ok({})
  {
    var lead, tail := TrimShape(input);
    assert ',' !in input;
    SplitJoin([input], ',');
    assert Split(input, ',') == [input];
    assert [input][..0] == [] && ReadAll([]) == Ok({});
    assert ReadPart(input) == Ok(Blank);
    var none: set<TaskId> := {};
    assert none + Ids(Blank) == none;
  }

  /** The parser: the ids of all parts in strictly increasing order. */
  method ParseTaskIds(input: string) returns (r: Result<seq<TaskId>>)
    ensures r == match ReadAll(Split(input, ',')) case Err(e) => Err(e) case Ok(ids) => Ok(SortedSeq(ids))
  {
    hide Split, Trim, ReadRange, ParseUsize, Ids, SortedSeq, StrictlySorted;
    if Trim(input) == "" {
      BlankInput(input);
      SortedUnique([], SortedSeq({}));
      return Ok([]);
    }
    var ids: set<TaskId> := {};
    var fields := Split(input, ',');
    for i := 0 to |fields|
      invariant ReadAll(fields[..i]) == Ok(ids)
    {
      assert fields[..i + 1][..i] == fields[..i];
      var part := Trim(fields[i]);
      if part == "" {
        assert ids + Ids(Blank) == ids;
        continue;
      }
      if ':' in part {
        var range := ParseRange(part);
        if range.Err? {
          FirstErrorWins(fields, i + 1);
          return Err(range.error);
        }
        ids := ids + Elems(range.value);
        assert Elems(range.value) == Ids(ReadRange(part).value);
      } else {
        var id := ParseUsize(part);
        if id.None? {
          FirstErrorWins(fields, i + 1);
          return Err(BadId);
        }
        ids := ids + {id.value};
        assert {id.value} == Ids(One(id.value));
      }
    }
    assert fields[..|fields|] == fields;
    r := Ok(SortedSeq(ids));
  }

  ghost predicate WritesLegal(field: string, part: Part) {
    Writes(field, part) && Legal(part)
  }

  /** The piece writes some legal part. */
  ghost predicate Readable(field: string) {
    exists part :: WritesLegal(field, part)
  }

  lemma ReadableIff(field: string)
    ensures ReadPart(field).Ok? <==> Readable(field)
    ensures ReadPart(field).Ok? ==> forall part :: WritesLegal(field, part) <==> part == ReadPart(field).value
  {
    hide ReadPart, Writes, Legal, WritesLegal;
    forall part ensures WritesLegal(field, part) <==> ReadPart(field) == Ok(part) {
      LegalIsRead(field, part);
    }
    if ReadPart(field).Ok? {
      assert WritesLegal(field, ReadPart(field).value);
    }
  }

  lemma LegalIsRead(field: string, part: Part)
    ensures WritesLegal(field, part) <==> ReadPart(field) == Ok(part)
  {
    hide ReadPart, Writes, Legal;
    ReadsWhatIsWritten(field, part);
  }

  lemma {:induction false} ReadAllMeans(fields: seq<string>)
    ensures ReadAll(fields).Ok? <==> forall i :: 0 <= i < |fields| ==> ReadPart(fields[i]).Ok?
    ensures ReadAll(fields).Ok? ==> forall x: TaskId :: x in ReadAll(fields).value <==>
      exists i :: 0 <= i < |fields| && Denotes(ReadPart(fields[i]).value, x)
  {
    hide ReadPart, Denotes;
    if fields != [] {
      var n := |fields| - 1;
      ReadAllMeans(fields[..n]);
      if ReadAll(fields).Ok? {
        forall x: TaskId
          ensures x in ReadAll(fields).value <==>
                  exists i :: 0 <= i < |fields| && Denotes(ReadPart(fields[i]).value, x)
        {
          if i :| 0 <= i < |fields| && Denotes(ReadPart(fields[i]).value, x) {
            if i < n { assert fields[..n][i] == fields[i]; }
          }
          if x in ReadAll(fields[..n]).value {
            var i :| 0 <= i < n && Denotes(ReadPart(fields[..n][i]).value, x);
            assert fields[..n][i] == fields[i];
          }
        }
      }
    }
  }

  /** Parsing succeeds exactly when every piece between commas writes a legal part, and then
      yields the union of what the parts stand for. */
  lemma ParsesTheNotation(fields: seq<string>)
    ensures ReadAll(fields).Ok? <==> forall i :: 0 <= i < |fields| ==> Readable(fields[i])
    ensures ReadAll(fields).Ok? ==> forall x: TaskId :: x in ReadAll(fields).value <==>
      exists i, part :: 0 <= i < |fields| && WritesLegal(fields[i], part) && Denotes(part, x)
  {
    hide ReadAll, ReadPart, Denotes, WritesLegal, Readable;
    ReadAllMeans(fields);
    forall i | 0 <= i < |fields|
      ensures ReadPart(fields[i]).Ok? <==> Readable(fields[i])
      ensures ReadPart(fields[i]).Ok? ==>
        forall part :: WritesLegal(fields[i], part) <==> part == ReadPart(fields[i]).value
    {
      ReadableIff(fields[i]);
    }
  }

  function TextOf(part: Part): string {
    match part
    case Blank => ""
    case One(id) => Decimal(id)
    case Range(first, last) => Decimal(first) + ":" + Decimal(last)
    case Stepped(first, last, step) => Decimal(first) + ":" + (Decimal(last) + ":" + Decimal(step))
  }

  function Texts(parts: seq<Part>): (fields: seq<string>)
    ensures |fields| == |parts|
    ensures forall i :: 0 <= i < |parts| ==> fields[i] == TextOf(parts[i])
  {
    seq(|parts|, i requires 0 <= i < |parts| => TextOf(parts[i]))
  }

  predicate FitsUsize(part: Part) {
    match part
    case Blank => true
    case One(id) => id <= USIZE_MAX
    case Range(_, last) => last <= USIZE_MAX
    case Stepped(_, last, step) => last <= USIZE_MAX && step <= USIZE_MAX
  }

  lemma DecimalIsNumber(n: nat)
    requires n <= USIZE_MAX
    ensures WritesNumber(Decimal(n), n) && ',' !in Decimal(n)
  {
    ParseDecimal(n);
    assert Decimal(n) == "" + Decimal(n) + "";
    assert forall i :: 0 <= i < |Decimal(n)| ==> IsDigit(Decimal(n)[i]);
  }

  lemma TextWritesPart(part: Part)
    requires FitsUsize(part) && Legal(part)
    ensures WritesLegal(TextOf(part), part) && ',' !in TextOf(part)
  {
    match part
    case Blank =>
    case One(id) => DecimalIsNumber(id);
    case Range(first, last) =>
      DecimalIsNumber(first);
      DecimalIsNumber(last);
    case Stepped(first, last, step) =>
      DecimalIsNumber(first);
      DecimalIsNumber(last);
      DecimalIsNumber(step);
  }

  function Union(parts: seq<Part>): set<TaskId> {
    if parts == [] then {} else Union(parts[..|parts| - 1]) + Ids(parts[|parts| - 1])
  }

  lemma {:induction false} TextsAreRead(parts: seq<Part>)
    requires forall i :: 0 <= i < |parts| ==> FitsUsize(parts[i]) && Legal(parts[i])
    ensures ReadAll(Texts(parts)) == Ok(Union(parts))
  {
    if parts != [] {
      var n := |parts| - 1;
      assert Texts(parts)[..n] == Texts(parts[..n]);
      TextsAreRead(parts[..n]);
      TextWritesPart(parts[n]);
      ReadsWhatIsWritten(TextOf(parts[n]), parts[n]);
    }
  }

  /** Writing any list of parts and parsing the text gives back exactly their union. */
  lemma WriteThenParse(parts: seq<Part>)
    requires parts != []
    requires forall i :: 0 <= i < |parts| ==> FitsUsize(parts[i]) && Legal(parts[i])
    ensures ReadAll(Split(Join(Texts(parts), ','), ',')) == Ok(Union(parts))
  {
    forall i | 0 <= i < |parts| ensures ',' !in Texts(parts)[i] {
      TextWritesPart(parts[i]);
    }
    SplitJoin(Texts(parts), ',');
    TextsAreRead(parts);
  }
}
