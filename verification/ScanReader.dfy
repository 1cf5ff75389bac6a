/**
 How a server's output becomes console events (ScanReader in daemon/system/utils.go). The input is what the
 buffered reader's ReadLine returns: pieces of lines, each saying whether more of its line follows, then
 the end of the input or another error. A line longer than the limit is documented to be cut off; in the
 code only the rest of the current piece is, and what follows is sent as further events.
 */
module ScanReader {

  const MAX_BUFFER_SIZE: nat := 64 * 1024

  datatype Input = Eof | Failure | Piece(line: string, isPrefix: bool, rest: Input)

  // ---------------------------------------------------------------------------
  // Carriage returns
  // ---------------------------------------------------------------------------

  /** A blank and a carriage return become a carriage return and a line feed. */
  function Rewrite(s: string): (r: string)
    ensures |r| == |s|
  {
    if |s| < 2 then s
    else if s[0] == ' ' && s[1] == '\r' then "\r\n" + Rewrite(s[2..])
    else [s[0]] + Rewrite(s[1..])
  }

  /** Byte by byte: the blank of a pair becomes a carriage return, the carriage return of a pair a line feed, and
      everything else stays. */
  lemma {:induction false} RewriteAt(s: string, i: nat)
    requires i < |s|
    ensures Rewrite(s)[i] == if s[i] == ' ' && i + 1 < |s| && s[i + 1] == '\r' then '\r'
                             else if s[i] == '\r' && i > 0 && s[i - 1] == ' ' then '\n'
                             else s[i]
  {
    if |s| >= 2 {
      if s[0] == ' ' && s[1] == '\r' {
        if i >= 2 {
          RewriteAt(s[2..], i - 2);
        }
      } else if i >= 1 {
        RewriteAt(s[1..], i - 1);
      }
    }
  }

  /** The pair to be replaced straddles the boundary. */
  predicate Straddles(a: string, b: string) {
    a != "" && b != "" && a[|a| - 1] == ' ' && b[0] == '\r'
  }

  lemma {:induction false} RewriteLast(a: string)
    ensures a != "" && a[|a| - 1] == ' ' ==> Rewrite(a)[|a| - 1] == ' '
  {
    if |a| >= 2 {
      if a[0] == ' ' && a[1] == '\r' {
        RewriteLast(a[2..]);
      } else {
        RewriteLast(a[1..]);
      }
    }
  }

  lemma {:induction false} RewriteUnstraddled(a: string, b: string)
    requires !Straddles(a, b)
    ensures Rewrite(a + b) == Rewrite(a) + Rewrite(b)
  {
    if a == "" {
      assert a + b == b && Rewrite(a) + Rewrite(b) == Rewrite(b);
    } else if |a| >= 2 && a[0] == ' ' && a[1] == '\r' {
      assert (a + b)[2..] == a[2..] + b;
      RewriteUnstraddled(a[2..], b);
    } else if |a| == 1 {
      assert (a + b)[1..] == b;
    } else {
      assert (a + b)[1..] == a[1..] + b;
      RewriteUnstraddled(a[1..], b);
    }
  }

  lemma {:induction false} RewriteStraddled(a: string, b: string)
    requires Straddles(a, b)
    ensures Rewrite(a + b)[|a| - 1] == '\r'
  {
    if |a| == 1 {
    } else if a[0] == ' ' && a[1] == '\r' {
      assert (a + b)[2..] == a[2..] + b;
      RewriteStraddled(a[2..], b);
    } else {
      assert (a + b)[1..] == a[1..] + b;
      RewriteStraddled(a[1..], b);
    }
  }

  function Concat(pieces: seq<string>): string {
    if pieces == [] then "" else pieces[0] + Concat(pieces[1..])
  }

  /** What is sent for the pieces of one line, if it is not too long. */
  function Text(pieces: seq<string>): string {
    if pieces == [] then "" else Rewrite(pieces[0]) + Text(pieces[1..])
  }

  predicate AnyStraddles(pieces: seq<string>) {
    pieces != [] && (Straddles(pieces[0], Concat(pieces[1..])) || AnyStraddles(pieces[1..]))
  }

  lemma {:induction false} TextLength(pieces: seq<string>)
    ensures |Text(pieces)| == |Concat(pieces)|
  {
    if pieces != [] {
      TextLength(pieces[1..]);
    }
  }

  /** Rewriting piece by piece keeps the length, and equals rewriting the whole line exactly when no pair
      straddles a boundary between pieces. */
  lemma {:induction false} PiecewiseExactly(pieces: seq<string>)
    ensures |Text(pieces)| == |Concat(pieces)|
    ensures Text(pieces) == Rewrite(Concat(pieces)) <==> !AnyStraddles(pieces)
  {
    TextLength(pieces);
    if pieces != [] {
      var a, b := pieces[0], Concat(pieces[1..]);
      PiecewiseExactly(pieces[1..]);
      var whole, parts := Rewrite(a + b), Rewrite(a) + Text(pieces[1..]);
      if Straddles(a, b) {
        RewriteStraddled(a, b);
        RewriteLast(a);
        assert whole[|a| - 1] != parts[|a| - 1];
      } else {
        RewriteUnstraddled(a, b);
        assert whole[..|a|] == parts[..|a|] == Rewrite(a);
        assert whole[|a|..] == Rewrite(b) && parts[|a|..] == Text(pieces[1..]);
      }
    }
  }

  // ---------------------------------------------------------------------------
  // Events
  // ---------------------------------------------------------------------------

  function NonEmpty(s: string): seq<string> {
    if s == "" then [] else [s]
  }

  /** The events sent from here on, with `buf` in the buffer. */
  function Sent(buf: string, input: Input): seq<string>
    decreases input
  {
    match input
    case Eof => NonEmpty(buf)
    case Failure => []
    case Piece(line, isPrefix, rest) =>
      var all := buf + Rewrite(line);
      if |all| > MAX_BUFFER_SIZE then [all[..MAX_BUFFER_SIZE]] + Sent("", rest)
      else if isPrefix then Sent(all, rest)
      else NonEmpty(all) + Sent("", rest)
  }

  predicate EndsWell(input: Input) {
    match input
    case Eof => true
    case Failure => false
    case Piece(_, _, rest) => EndsWell(rest)
  }

  /** What a sequence of pieces and an end come in as. */
  function InputOf(pieces: seq<(string, bool)>, end: Input): Input {
    if pieces == [] then end else Piece(pieces[0].0, pieces[0].1, InputOf(pieces[1..], end))
  }

  /** Whatever comes before, an input ends well exactly if it does not end in an error. */
  lemma {:induction false} EndsWellExactly(pieces: seq<(string, bool)>, end: Input)
    requires !end.Piece?
    ensures EndsWell(InputOf(pieces, end)) <==> end == Eof
  {
    if pieces != [] {
      EndsWellExactly(pieces[1..], end);
    }
  }

  datatype Outcome = LineDone | InputDone | Failed

  /** The inner loop: fills the buffer up to the end of a line, the limit, or the end of the input. */
  method FillBuffer(input: Input) returns (buf: string, rest: Input, outcome: Outcome)
    ensures match outcome
            case LineDone =>
              Sent("", input) == NonEmpty(buf) + Sent("", rest) && EndsWell(input) == EndsWell(rest) && rest < input
            case InputDone => Sent("", input) == NonEmpty(buf) && EndsWell(input)
            case Failed => Sent("", input) == [] && !EndsWell(input)
  {
    buf, rest := "", input;
    while true
      invariant Sent("", input) == Sent(buf, rest) && EndsWell(input) == EndsWell(rest)
      invariant (rest == input || rest < input) && |buf| <= MAX_BUFFER_SIZE
      decreases rest
    {
      if rest == Failure {
        return buf, rest, Failed;
      }
      if rest == Eof {
        return buf, rest, InputDone;
      }
      var line, isPrefix := Rewrite(rest.line), rest.isPrefix;
      var ns := |buf| + |line|;
      rest := rest.rest;
      if ns > MAX_BUFFER_SIZE {
        buf := Cut(buf, line, ns);
        return buf, rest, LineDone;
      }
      buf := buf + line;
      if !isPrefix {
        return buf, rest, LineDone;
      }
    }
  }

  /** As much of the line as the buffer still takes. */
  function Cut(buf: string, line: string, ns: nat): (r: string)
    requires |buf| <= MAX_BUFFER_SIZE < ns == |buf| + |line|
    ensures r == (buf + line)[..MAX_BUFFER_SIZE]
  {
    buf + line[..|line| - (ns - MAX_BUFFER_SIZE)]
  }

  method ScanReader(input: Input) returns (events: seq<string>, ok: bool)
    ensures events == Sent("", input)
    ensures ok <==> EndsWell(input)
  {
    events := [];
    var r := input;
    ghost var all, left := Sent("", input), Sent("", input);
    while true
      invariant all == events + left && left == Sent("", r) && EndsWell(input) == EndsWell(r)
      decreases r
    {
      var buf, rest, outcome := FillBuffer(r);
      if outcome == Failed {
        return events, false;
      }
      AddEvent(events, buf, if outcome == InputDone then [] else Sent("", rest));
      if |buf| > 0 {
        events := events + [buf];
      }
      if outcome == InputDone {
        return events, true;
      }
      r, left := rest, Sent("", rest);
    }
  }

  lemma AddEvent(events: seq<string>, buf: string, left: seq<string>)
    ensures events + (NonEmpty(buf) + left) == (if |buf| > 0 then events + [buf] else events) + left
    ensures left == [] ==> NonEmpty(buf) + left == NonEmpty(buf)
    ensures left == [] ==> (if |buf| > 0 then events + [buf] else events) + left == if |buf| > 0 then events + [buf] else events
  {
  }

  /** Every event has between 1 and 65536 bytes, whatever the input. */
  lemma {:induction false} EventSizes(buf: string, input: Input)
    requires |buf| <= MAX_BUFFER_SIZE
    ensures forall e :: e in Sent(buf, input) ==> 1 <= |e| <= 65536
    decreases input
  {
    if input.Piece? {
      var all := buf + Rewrite(input.line);
      EventSizes("", input.rest);
      if |all| <= MAX_BUFFER_SIZE {
        EventSizes(all, input.rest);
      }
    }
  }

  // ---------------------------------------------------------------------------
  // Lines
  // ---------------------------------------------------------------------------

  /** The lines of the input in pieces, `pieces` being the start of the current one. A failure loses the
      line it interrupts. */
  function Lines(pieces: seq<string>, input: Input): seq<seq<string>>
    decreases input
  {
    match input
    case Eof => [pieces]
    case Failure => []
    case Piece(line, isPrefix, rest) =>
      if isPrefix then Lines(pieces + [line], rest) else [pieces + [line]] + Lines([], rest)
  }

  /** No line, complete or interrupted, is longer than 64 KiB. */
  predicate AllFit(pieces: seq<string>, input: Input)
    decreases input
  {
    match input
    case Eof => |Text(pieces)| <= 65536
    case Failure => |Text(pieces)| <= 65536
    case Piece(line, isPrefix, rest) =>
      if isPrefix then AllFit(pieces + [line], rest)
      else |Text(pieces + [line])| <= 65536 && AllFit([], rest)
  }

  function Texts(lines: seq<seq<string>>): seq<string> {
    if lines == [] then [] else NonEmpty(Text(lines[0])) + Texts(lines[1..])
  }

  lemma {:induction false} TextAppend(pieces: seq<string>, line: string)
    ensures Text(pieces + [line]) == Text(pieces) + Rewrite(line)
  {
    if pieces == [] {
      assert pieces + [line] == [line] && [line][1..] == [];
    } else {
      assert (pieces + [line])[1..] == pieces[1..] + [line];
      TextAppend(pieces[1..], line);
    }
  }

  lemma {:induction false} FitsSoFar(pieces: seq<string>, input: Input)
    requires AllFit(pieces, input)
    ensures |Text(pieces)| <= MAX_BUFFER_SIZE
    decreases input
  {
    if input.Piece? {
      TextAppend(pieces, input.line);
      if input.isPrefix {
        FitsSoFar(pieces + [input.line], input.rest);
      }
    }
  }

  lemma {:induction false} SentFrom(pieces: seq<string>, input: Input)
    requires AllFit(pieces, input)
    ensures Sent(Text(pieces), input) == Texts(Lines(pieces, input))
    decreases input
  {
    FitsSoFar(pieces, input);
    match input
    case Eof =>
      assert Lines(pieces, input)[1..] == [];
    case Failure =>
    case Piece(line, isPrefix, rest) =>
      TextAppend(pieces, line);
      if isPrefix {
        FitsSoFar(pieces + [line], rest);
        SentFrom(pieces + [line], rest);
      } else {
        SentFrom([], rest);
        assert Lines(pieces, input)[1..] == Lines([], rest);
      }
  }

  lemma {:induction false} TooLongShows(pieces: seq<string>, input: Input)
    requires EndsWell(input) && !AllFit(pieces, input)
    ensures exists e :: e in Texts(Lines(pieces, input)) && |e| > MAX_BUFFER_SIZE
    decreases input
  {
    match input
    case Eof =>
      assert Text(pieces) in Texts(Lines(pieces, input));
    case Piece(line, isPrefix, rest) =>
      if isPrefix {
        TooLongShows(pieces + [line], rest);
      } else {
        assert Lines(pieces, input)[1..] == Lines([], rest);
        if |Text(pieces + [line])| > MAX_BUFFER_SIZE {
          assert Text(pieces + [line]) in Texts(Lines(pieces, input));
        } else {
          TooLongShows([], rest);
        }
      }
  }

  /** The events are the non-empty lines in order, each the concatenation of its rewritten pieces, whatever
      the boundaries: always when no line is too long, and for an input that ends well only then. */
  lemma EventsAreLinesExactly(input: Input)
    ensures AllFit([], input) ==> Sent("", input) == Texts(Lines([], input))
    ensures EndsWell(input) ==> (Sent("", input) == Texts(Lines([], input)) <==> AllFit([], input))
  {
    if AllFit([], input) {
      SentFrom([], input);
    } else if EndsWell(input) {
      TooLongShows([], input);
      EventSizes("", input);
    }
  }

  /** A line made of the given pieces. */
  function OneLine(pieces: seq<string>, rest: Input): Input {
    if pieces == [] then rest
    else Piece(pieces[0], |pieces| > 1, OneLine(pieces[1..], rest))
  }

  /** A line that is too long is cut where it passes the limit, and its remaining pieces are then sent as
      if they were the next line. */
  lemma {:induction false} TooLongLine(buf: string, pieces: seq<string>, rest: Input) returns (k: nat)
    requires |buf| <= MAX_BUFFER_SIZE < |buf + Text(pieces)|
    ensures k < |pieces| && |buf + Text(pieces[..k])| <= MAX_BUFFER_SIZE < |buf + Text(pieces[..k + 1])|
    ensures Sent(buf, OneLine(pieces, rest))
            == [(buf + Text(pieces))[..MAX_BUFFER_SIZE]] + Sent("", OneLine(pieces[k + 1..], rest))
    decreases |pieces|
  {
    var all := buf + Rewrite(pieces[0]);
    assert all + Text(pieces[1..]) == buf + Text(pieces);
    if |all| > MAX_BUFFER_SIZE {
      k := 0;
      assert pieces[..1] == [pieces[0]] && [pieces[0]][1..] == [];
      assert all[..MAX_BUFFER_SIZE] == (buf + Text(pieces))[..MAX_BUFFER_SIZE];
    } else {
      var j := TooLongLine(all, pieces[1..], rest);
      k := j + 1;
      assert pieces[..k][1..] == pieces[1..][..j] && pieces[..k + 1][1..] == pieces[1..][..j + 1];
      assert pieces[1..][j + 1..] == pieces[k + 1..];
    }
  }
}
