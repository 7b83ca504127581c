// The bobyqa_result enumeration of bobyqa.h and the message table of
// bobyqa_rc.
module ResultCodes {
  import opened Common

  datatype ResultCode =
    | InvalidArgs | OutOfMemory | RoundoffLimited | Fail
    | Success
    | MinfMaxReached | FtolReached | XtolReached | MaxevalReached | RelftolReached | AbsftolReached
  {
    /** The four failure codes. */
    predicate IsFailure() {
      this == InvalidArgs || this == OutOfMemory || this == RoundoffLimited || this == Fail
    }
    /** The six reasons for a successful stop. */
    predicate IsTermination() {
      this == MinfMaxReached || this == FtolReached || this == XtolReached
      || this == MaxevalReached || this == RelftolReached || this == AbsftolReached
    }
  }

  /** The integer value of each enumerator: failures are negative, success is
      zero and the six stopping reasons are 1 to 6. */
  function Code(rc: ResultCode): (c: int)
    ensures c < 0 <==> rc.IsFailure()
    ensures c == 0 <==> rc == Success
    ensures c > 0 <==> rc.IsTermination()
    ensures -4 <= c <= 6
  {
    match rc
    case InvalidArgs => -1
    case OutOfMemory => -2
    case RoundoffLimited => -3
    case Fail => -4
    case Success => 0
    case MinfMaxReached => 1
    case FtolReached => 2
    case XtolReached => 3
    case MaxevalReached => 4
    case RelftolReached => 5
    case AbsftolReached => 6
  }

  /** The enumerator an integer stands for, if any. */
  function FromCode(c: int): (r: Option<ResultCode>)
    ensures r.Some? <==> -4 <= c <= 6
    ensures r.Some? ==> Code(r.value) == c
  {
    if c == -1 then Some(InvalidArgs)
    else if c == -2 then Some(OutOfMemory)
    else if c == -3 then Some(RoundoffLimited)
    else if c == -4 then Some(Fail)
    else if c == 0 then Some(Success)
    else if c == 1 then Some(MinfMaxReached)
    else if c == 2 then Some(FtolReached)
    else if c == 3 then Some(XtolReached)
    else if c == 4 then Some(MaxevalReached)
    else if c == 5 then Some(RelftolReached)
    else if c == 6 then Some(AbsftolReached)
    else None
  }

  /** Code and FromCode are inverse to each other, so no two enumerators
      share a value. */
  lemma CodeRoundTrip(rc: ResultCode)
    ensures FromCode(Code(rc)) == Some(rc)
  {
  }

  /** The strings of bobyqa_msg, in table order. */
  const Messages: seq<string> := [
    "failure",
    "invalid argument",
    "out of memory",
    "round-off limited",
    "success",
    "requested function value reached",
    "function value tolerance reached",
    "relative function value tolerance reached",
    "absolute function value tolerance reached",
    "parameter tolerance reached",
    "maximum number of function evaluations reached"
  ]

  /** The table position bobyqa_rc picks for an enumerator. */
  function MessageIndex(rc: ResultCode): (k: nat)
    ensures k < |Messages|
    ensures k == 0 <==> rc == Fail
  {
    match rc
    case Fail => 0
    case InvalidArgs => 1
    case OutOfMemory => 2
    case RoundoffLimited => 3
    case Success => 4
    case MinfMaxReached => 5
    case FtolReached => 6
    case RelftolReached => 7
    case AbsftolReached => 8
    case XtolReached => 9
    case MaxevalReached => 10
  }

  /** bobyqa_rc applied to the integer held in a bobyqa_result variable: a
      value outside the enumeration falls through the switch to "failure". */
  function Message(c: int): (s: string)
    ensures s in Messages
    ensures FromCode(c).None? ==> s == "failure"
    ensures s == "failure" <==> (c == Code(Fail) || FromCode(c).None?)
  {
    match FromCode(c)
    case None => Messages[0]
    case Some(rc) => Messages[MessageIndex(rc)]
  }

  /** Different enumerators get different messages. */
  lemma MessagesDistinguishCodes(a: ResultCode, b: ResultCode)
    ensures Message(Code(a)) == Message(Code(b)) ==> a == b
  {
    CodeRoundTrip(a);
    CodeRoundTrip(b);
    assert Message(Code(a)) == Messages[MessageIndex(a)];
    assert Message(Code(b)) == Messages[MessageIndex(b)];
    MessagesDistinct(MessageIndex(a), MessageIndex(b));
  }

  /** No two entries of the table are equal. */
  lemma MessagesDistinct(i: nat, j: nat)
    requires i < |Messages| && j < |Messages|
    ensures Messages[i] == Messages[j] ==> i == j
  {
  }
}
