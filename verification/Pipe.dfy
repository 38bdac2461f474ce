/** The byte pump between a reader and a writer, without compression (pipe in utils.go). */
module Pipes {
  import opened Snapshots
  import opened Preludes

  datatype End = More | Eof | Broken

  /** One turn of the loop: whether there is a cancellation, what the reader gives and how it
      ends, how many bytes the writer takes and whether it complains. */
  datatype Turn = Turn(cancel: bool, data: seq<Byte>, end: End, accepted: nat, writeError: bool)

  datatype Outcome = Running | Cancelled | ShortWrite | WriteError | Copied | ReadError

  function Delivered(turns: seq<Turn>): seq<Byte> {
    if turns == [] then [] else Delivered(turns[..|turns| - 1]) + Last(turns).data
  }

  /** How much had been copied after each turn that brought anything. */
  function Counts(turns: seq<Turn>): seq<nat> {
    if turns == [] then []
    else
      var before := Counts(turns[..|turns| - 1]);
      if Last(turns).data == [] then before else before + [|Delivered(turns)|]
  }

  predicate Copies(t: Turn) {
    !t.cancel && (t.data != [] ==> |t.data| <= t.accepted && !t.writeError)
  }

  predicate GoesOn(t: Turn) {
    Copies(t) && t.end == More
  }

  /** Everything went well up to a turn at which the reader came to its end. */
  ghost predicate CleanEnd(turns: seq<Turn>, k: nat) {
    k < |turns| && Copies(turns[k]) && turns[k].end == Eof && forall j :: 0 <= j < k ==> Copies(turns[j]) && turns[j].end == More
  }

  /** How the turn at which the pump stops makes it end. */
  predicate StopsWith(t: Turn, outcome: Outcome) {
    match outcome
    case Running => false
    case Cancelled => t.cancel
    case ShortWrite => !t.cancel && t.accepted < |t.data|
    case WriteError => !t.cancel && t.data != [] && |t.data| <= t.accepted && t.writeError
    case Copied => Copies(t) && t.end == Eof
    case ReadError => Copies(t) && t.end == Broken
  }

  /** What has been done after any number of turns.  `used` is the number of turns at which
      something was read, and `signals` how often the end was signalled. */
  method Pipe(turns: seq<Turn>)
    returns (written: seq<Byte>, reports: seq<nat>, signals: nat, outcome: Outcome, used: nat)
    ensures used <= |turns|
    ensures signals == if outcome == Running then 0 else 1
    ensures written <= Delivered(turns[..used])
    ensures outcome != ShortWrite ==> written == Delivered(turns[..used]) && reports == Counts(turns[..used])
    ensures outcome == ShortWrite ==>
              && used > 0 && reports == Counts(turns[..used - 1]) && turns[used - 1].accepted < |turns[used - 1].data|
              && written == Delivered(turns[..used - 1]) + turns[used - 1].data[..turns[used - 1].accepted]
              && |written| < |Delivered(turns[..used])|
    // it stops at the first turn that does not go on, and reads nothing in a cancelled one
    ensures forall j :: 0 <= j < used - 1 ==> GoesOn(turns[j])
    ensures outcome == Cancelled ==> used < |turns| && StopsWith(turns[used], outcome) && (used > 0 ==> GoesOn(turns[used - 1]))
    ensures outcome != Running && outcome != Cancelled ==> used > 0 && StopsWith(turns[used - 1], outcome)
    ensures outcome == Copied <==> exists k :: CleanEnd(turns, k)
    ensures outcome == Copied ==> used > 0 && CleanEnd(turns, used - 1)
    ensures outcome == Running <==> forall t <- turns :: GoesOn(t)
    ensures outcome == Running ==> used == |turns|
  {
    written, reports, signals, outcome, used := Pump(turns);
    var stop := if outcome == Running || outcome == Cancelled then used else used - 1;
    if outcome == Copied {
      assert CleanEnd(turns, used - 1);
    } else {
      NoCleanEnd(turns, stop);
    }
    if stop < |turns| { assert turns[stop] in turns && !GoesOn(turns[stop]); }
  }

  /** The loop. */
  method Pump(turns: seq<Turn>)
    returns (written: seq<Byte>, reports: seq<nat>, signals: nat, outcome: Outcome, used: nat)
    ensures used <= |turns|
    ensures signals == if outcome == Running then 0 else 1
    ensures outcome != ShortWrite ==> written == Delivered(turns[..used]) && reports == Counts(turns[..used])
    ensures outcome == ShortWrite ==>
              && used > 0 && reports == Counts(turns[..used - 1]) && turns[used - 1].accepted < |turns[used - 1].data|
              && written == Delivered(turns[..used - 1]) + turns[used - 1].data[..turns[used - 1].accepted]
              && Delivered(turns[..used]) == Delivered(turns[..used - 1]) + turns[used - 1].data
    ensures forall j :: 0 <= j < used - 1 ==> GoesOn(turns[j])
    ensures outcome == Cancelled ==> used < |turns| && StopsWith(turns[used], outcome) && (used > 0 ==> GoesOn(turns[used - 1]))
    ensures outcome != Running && outcome != Cancelled ==> used > 0 && StopsWith(turns[used - 1], outcome)
    ensures outcome == Running ==> used == |turns| && forall j :: 0 <= j < |turns| ==> GoesOn(turns[j])
  {
    written, reports, signals, used := [], [], 0, 0;
    var totalBytes := 0;
    while used < |turns|
      invariant 0 <= used <= |turns| && signals == 0
      invariant written == Delivered(turns[..used]) && reports == Counts(turns[..used]) && totalBytes == |written|
      invariant forall j :: 0 <= j < used ==> GoesOn(turns[j])
    {
      var t := turns[used];
      if t.cancel {
        signals := signals + 1;
        return written, reports, signals, Cancelled, used;
      }
      used := used + 1;
      assert turns[..used][..used - 1] == turns[..used - 1] && Last(turns[..used]) == t;
      var nr := |t.data|;
      if nr > 0 {
        var nw := if t.accepted < nr then t.accepted else nr;
        written := written + t.data[..nw];
        if nw != nr {
          signals := signals + 1;
          return written, reports, signals, ShortWrite, used;
        }
        assert t.data[..nw] == t.data;
        totalBytes := totalBytes + nr;
        reports := reports + [totalBytes];
        if t.writeError {
          signals := signals + 1;
          return written, reports, signals, WriteError, used;
        }
      }
      if t.end == Eof {
        signals := signals + 1;
        return written, reports, signals, Copied, used;
      } else if t.end == Broken {
        signals := signals + 1;
        return written, reports, signals, ReadError, used;
      }
    }
    assert turns[..used] == turns;
    return written, reports, signals, Running, used;
  }

  /** When all went well up to a turn that goes wrong, there is no clean end. */
  lemma NoCleanEnd(turns: seq<Turn>, used: nat)
    requires used <= |turns| && forall j :: 0 <= j < used ==> GoesOn(turns[j])
    requires used < |turns| ==> !Copies(turns[used]) || turns[used].end == Broken
    ensures forall k :: !CleanEnd(turns, k)
  {
    forall k: nat ensures !CleanEnd(turns, k) {
      if used < k && k < |turns| { assert !GoesOn(turns[used]); }
      if k < used { assert GoesOn(turns[k]); }
    }
  }

  /** What is delivered is what the turns bring, one after the other. */
  lemma {:induction false} DeliveredInOrder(turns: seq<Turn>, k: nat)
    requires k <= |turns|
    ensures Delivered(turns) == Delivered(turns[..k]) + Delivered(turns[k..])
    ensures |turns| == 1 ==> Delivered(turns) == turns[0].data
  {
    if k == |turns| {
      assert turns[..k] == turns;
      if |turns| == 1 { assert turns[..0] == [] && Delivered(turns[..0]) == []; }
    } else {
      var init := turns[..|turns| - 1];
      DeliveredInOrder(init, k);
      assert init[..k] == turns[..k] && turns[k..][..|turns| - k - 1] == init[k..];
      if |turns| == 1 { assert init == []; }
    }
  }

  /** Each report is larger than the one before; the last one is all that was copied. */
  lemma {:induction false} CountsAreHonest(turns: seq<Turn>)
    ensures forall i, j :: 0 <= i < j < |Counts(turns)| ==> Counts(turns)[i] < Counts(turns)[j]
    ensures |Delivered(turns)| == if Counts(turns) == [] then 0 else Last(Counts(turns))
  {
    if turns == [] {
    } else {
      CountsAreHonest(turns[..|turns| - 1]);
    }
  }
}
