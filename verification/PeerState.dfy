/** The peer state machine table of RFC 6733 section 5.6 as
    diam/peer/transition.go states it, and the election order of section 5.6.4. */
module PeerState {
  import opened Octets

  datatype State = Closed | WaitConnAck | WaitICEA | WaitConnAckElect | WaitReturns | IOpen | ROpen | Closing

  datatype Event =
    | EvStart | RConnCER | IAck | INack | Timeout | ICEA | IDisc | RDisc | INonCEA | WinElection | SendMessage
    | IMessage | RMessage | IDWR | RDWR | IDWA | RDWA | EvStop | IDPR | RDPR | IDPA | RDPA

  /** transition: the next state, where the table has a row. */
  function Transition(s: State, e: Event): Option<State> {
    match s
    case Closed => (match e case EvStart => Some(WaitConnAck) case RConnCER => Some(ROpen) case _ => None)
    case WaitConnAck =>
      (match e
       case IAck => Some(WaitICEA)
       case INack | Timeout => Some(Closed)
       case RConnCER => Some(WaitConnAckElect)
       case _ => None)
    case WaitICEA =>
      (match e
       case ICEA => Some(IOpen)
       case RConnCER => Some(WaitReturns)
       case IDisc | INonCEA | Timeout => Some(Closed)
       case _ => None)
    case WaitConnAckElect =>
      (match e
       case IAck => Some(WaitReturns)
       case INack => Some(ROpen)
       case RDisc => Some(WaitConnAck)
       case RConnCER => Some(WaitConnAckElect)
       case Timeout => Some(Closed)
       case _ => None)
    case WaitReturns =>
      (match e
       case WinElection | IDisc => Some(ROpen)
       case ICEA => Some(IOpen)
       case RDisc => Some(WaitICEA)
       case RConnCER => Some(WaitReturns)
       case Timeout => Some(Closed)
       case _ => None)
    case ROpen =>
      (match e
       case SendMessage | RMessage | RDWR | RDWA | RConnCER => Some(ROpen)
       case EvStop | RDPR => Some(Closing)
       case RDisc => Some(Closed)
       case _ => None)
    case IOpen =>
      (match e
       case SendMessage | IMessage | IDWR | IDWA | RConnCER => Some(IOpen)
       case EvStop | IDPR => Some(Closing)
       case IDisc => Some(Closed)
       case _ => None)
    case Closing => (match e case IDPA | RDPA | Timeout | IDisc | RDisc => Some(Closed) case _ => None)
  }

  // ---- Identities ------------------------------------------------------------------

  function Lower(c: Byte): Byte {
    if 'A' as int <= c <= 'Z' as int then c + 32 else c
  }

  function Folded(s: Bytes): (f: Bytes)
    ensures |f| == |s| && forall i :: 0 <= i < |s| ==> f[i] == Lower(s[i])
  {
    seq(|s|, i requires 0 <= i < |s| => Lower(s[i]))
  }

  /** identity: the ASCII letters of a DiameterIdentity in lower case. */
  method Identity(s: Bytes) returns (f: Bytes)
    ensures f == Folded(s)
  {
    f := s;
    for i := 0 to |s|
      invariant |f| == |s|
      invariant forall j :: 0 <= j < |s| ==> f[j] == if j < i then Lower(s[j]) else s[j]
    {
      if 'A' as int <= f[i] <= 'Z' as int { f := f[i := f[i] + 32]; }
    }
  }

  /** Octet-wise lexicographic comparison: -1, 0 or 1. */
  function Compare(a: Bytes, b: Bytes): (r: int)
    ensures -1 <= r <= 1
  {
    if a == [] then (if b == [] then 0 else -1)
    else if b == [] then 1
    else if a[0] != b[0] then (if a[0] < b[0] then -1 else 1)
    else Compare(a[1..], b[1..])
  }

  lemma {:induction false} CompareSides(a: Bytes, b: Bytes)
    ensures Compare(a, b) == -Compare(b, a) && (Compare(a, b) == 0 <==> a == b)
  {
    if a != [] && b != [] && a[0] == b[0] {
      CompareSides(a[1..], b[1..]);
      assert a == [a[0]] + a[1..] && b == [b[0]] + b[1..];
    }
  }

  function CompareIdentity(a: Bytes, b: Bytes): (r: int)
    ensures -1 <= r <= 1
  {
    Compare(Folded(a), Folded(b))
  }

  /** Two peers never both win; one of them does unless they differ in case only. */
  lemma OneWinner(a: Bytes, b: Bytes)
    ensures !(CompareIdentity(a, b) == 1 && CompareIdentity(b, a) == 1)
    ensures CompareIdentity(a, b) == 1 || CompareIdentity(b, a) == 1 <==> Folded(a) != Folded(b)
    ensures CompareIdentity(a, b) == -CompareIdentity(b, a)
  {
    CompareSides(Folded(a), Folded(b));
  }
}
