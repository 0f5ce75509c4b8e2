/** How bytes leave a queue: delivered to whoever they were for, or flushed. */
module Departures {

  datatype Fate = Delivered | Flushed
  datatype Departure = Departure(b: bv8, fate: Fate)

  function Mark(s: seq<bv8>, fate: Fate): seq<Departure> {
    seq(|s|, i requires 0 <= i < |s| => Departure(s[i], fate))
  }

  function Bytes(d: seq<Departure>): (r: seq<bv8>)
    ensures |r| == |d|
  {
    seq(|d|, i requires 0 <= i < |d| => d[i].b)
  }

  function DeliveredBytes(d: seq<Departure>): seq<bv8> {
    if d == [] then [] else (if d[0].fate.Delivered? then [d[0].b] else []) + DeliveredBytes(d[1..])
  }

  lemma {:induction false} DeliveredMarks(s: seq<bv8>, fate: Fate)
    ensures DeliveredBytes(Mark(s, fate)) == if fate == Delivered then s else []
    decreases |s|
  {
    if s != [] {
      DeliveredMarks(s[1..], fate);
      assert Mark(s, fate)[1..] == Mark(s[1..], fate);
      assert s == [s[0]] + s[1..];
    }
  }

  lemma {:induction false} DeliveredConcat(a: seq<Departure>, b: seq<Departure>)
    ensures DeliveredBytes(a + b) == DeliveredBytes(a) + DeliveredBytes(b)
    decreases |a|
  {
    if a == [] {
      assert a + b == b;
    } else {
      DeliveredConcat(a[1..], b);
      assert (a + b)[1..] == a[1..] + b;
    }
  }

  lemma BytesConcat(a: seq<Departure>, b: seq<Departure>)
    ensures Bytes(a + b) == Bytes(a) + Bytes(b)
  {
  }
}
