/** Splitting a string the way repeated `std::getline(stream, field, '|')`
    does, and the inverse join the serializer performs. */
module Getline {
  import opened Base

  const DELIM: Char8 := '|'

  /** How many delimiters `s` holds. */
  function CountDelims(s: CStr): nat
  {
    if |s| == 0 then 0 else (if s[0] == DELIM then 1 else 0) + CountDelims(s[1..])
  }

  lemma {:induction false} CountDelimsConcat(a: CStr, b: CStr)
    ensures CountDelims(a + b) == CountDelims(a) + CountDelims(b)
  {
    if |a| > 0 {
      assert (a + b)[0] == a[0];
      assert (a + b)[1..] == a[1..] + b;
      CountDelimsConcat(a[1..], b);
    } else {
      assert a + b == b;
    }
  }

  lemma {:induction false} CountDelimsZero(s: CStr)
    ensures CountDelims(s) == 0 <==> DELIM !in s
  {
    if |s| > 0 {
      CountDelimsZero(s[1..]);
      assert s == [s[0]] + s[1..];
    }
  }

  /** Index of the first delimiter, or `|s|` when there is none. */
  function FindDelim(s: CStr): (i: nat)
    ensures i <= |s|
    ensures DELIM !in s[..i]
    ensures i < |s| ==> s[i] == DELIM
  {
    if |s| == 0 || s[0] == DELIM then 0
    else
      var j := FindDelim(s[1..]);
      assert s[..1 + j] == [s[0]] + s[1..][..j];
      1 + j
  }

  /** The fields the `getline` loop collects: each call extracts up to the
      next delimiter and drops it; a call at end of input fails and ends the
      loop. Empty fields between delimiters are kept, but a final delimiter
      does not produce a trailing empty field, and empty input gives none. */
  function Split(s: CStr): (fields: seq<CStr>)
    ensures forall k :: 0 <= k < |fields| ==> DELIM !in fields[k]
    ensures |fields| == CountDelims(s) + (if |s| > 0 && s[|s| - 1] != DELIM then 1 else 0)
    decreases |s|
  {
    if |s| == 0 then []
    else
      var i := FindDelim(s);
      if i == |s| then
        CountDelimsZero(s);
        [s]
      else
        var rest := Split(s[i + 1..]);
        assert s == s[..i] + [DELIM] + s[i + 1..];
        CountDelimsConcat(s[..i] + [DELIM], s[i + 1..]);
        CountDelimsConcat(s[..i], [DELIM]);
        CountDelimsZero(s[..i]);
        [s[..i]] + rest
  }

  /** The fields joined with one delimiter between neighbours. */
  function Join(fields: seq<CStr>): CStr
    requires |fields| > 0
  {
    if |fields| == 1 then fields[0] else fields[0] + [DELIM] + Join(fields[1..])
  }

  /** Joining then splitting gives the fields back when none holds a delimiter
      and the last is non-empty. */
  lemma {:induction false} SplitJoin(fields: seq<CStr>)
    requires |fields| > 0
    requires forall k :: 0 <= k < |fields| ==> DELIM !in fields[k]
    requires |fields[|fields| - 1]| > 0
    ensures Split(Join(fields)) == fields
  {
    if |fields| == 1 {
      CountDelimsZero(fields[0]);
      assert FindDelim(fields[0]) == |fields[0]|;
    } else {
      var tail := fields[1..];
      assert forall k :: 0 <= k < |tail| ==> tail[k] == fields[k + 1];
      assert tail[|tail| - 1] == fields[|fields| - 1];
      SplitJoin(tail);
      SplitAfterDelim(fields[0], Join(tail));
    }
  }

  /** A field without a delimiter, then a delimiter: the first field split off. */
  lemma {:induction false} SplitAfterDelim(head: CStr, tail: CStr)
    requires DELIM !in head
    ensures Split(head + [DELIM] + tail) == [head] + Split(tail)
  {
    var s := head + [DELIM] + tail;
    FindDelimAfter(head, tail);
    assert s[..|head|] == head;
    assert s[|head| + 1..] == tail;
  }

  lemma {:induction false} FindDelimAfter(head: CStr, tail: CStr)
    requires DELIM !in head
    ensures FindDelim(head + [DELIM] + tail) == |head|
  {
    var s := head + [DELIM] + tail;
    if |head| > 0 {
      assert s[0] == head[0];
      assert s[1..] == head[1..] + [DELIM] + tail;
      FindDelimAfter(head[1..], tail);
    }
  }

  /** The number of delimiters in a join: one between each pair of fields,
      plus those inside the fields. */
  lemma {:induction false} CountDelimsJoin(fields: seq<CStr>)
    requires |fields| > 0
    ensures CountDelims(Join(fields)) == |fields| - 1 + SumDelims(fields)
  {
    if |fields| > 1 {
      CountDelimsJoin(fields[1..]);
      CountDelimsConcat(fields[0] + [DELIM], Join(fields[1..]));
      CountDelimsConcat(fields[0], [DELIM]);
    }
  }

  function SumDelims(fields: seq<CStr>): nat
  {
    if |fields| == 0 then 0 else CountDelims(fields[0]) + SumDelims(fields[1..])
  }

  lemma {:induction false} SumDelimsZero(fields: seq<CStr>)
    ensures SumDelims(fields) == 0 <==> forall k :: 0 <= k < |fields| ==> DELIM !in fields[k]
  {
    if |fields| > 0 {
      CountDelimsZero(fields[0]);
      SumDelimsZero(fields[1..]);
      assert forall k :: 1 <= k < |fields| ==> fields[k] == fields[1..][k - 1];
    }
  }
}
