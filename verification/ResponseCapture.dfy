/** The response writer that keeps a bounded prefix of the body while passing every call through. */
module ResponseCapture {
  import opened Wrappers

  type Byte = bv8

  const STATUS_OK := 200

  datatype Op = Header(code: int) | Body(bytes: seq<Byte>)

  /** What a write reports: how many bytes were written, and an error if there was one. */
  datatype Reply = Reply(n: int, error: Option<string>)

  /** The underlying writer, seen as the record of the calls it gets; what it replies to a write is
      anything the calls so far determine. */
  class Sink {
    const reply: seq<Op> -> Reply
    var calls: seq<Op>

    constructor (reply: seq<Op> -> Reply)
      ensures calls == [] && this.reply == reply
    {
      this.reply := reply;
      calls := [];
    }

    method WriteHeader(code: int)
      modifies this
      ensures calls == old(calls) + [Header(code)]
    {
      calls := calls + [Header(code)];
    }

    method Write(p: seq<Byte>) returns (result: Reply)
      modifies this
      ensures calls == old(calls) + [Body(p)] && result == reply(calls)
    {
      calls := calls + [Body(p)];
      result := reply(calls);
    }
  }

  /** All body bytes offered, in order. */
  function Offered(ops: seq<Op>): seq<Byte> {
    if ops == [] then []
    else
      var last := ops[|ops| - 1];
      Offered(ops[..|ops| - 1]) + if last.Body? then last.bytes else []
  }

  function Prefix(limit: int, bytes: seq<Byte>): seq<Byte> {
    if limit <= 0 then [] else if |bytes| <= limit then bytes else bytes[..limit]
  }

  /** Some write began with the buffer already full, or went past the limit. */
  predicate Overran(limit: int, ops: seq<Op>) {
    exists k :: 0 <= k < |ops| && ops[k].Body?
             && (|Offered(ops[..k])| >= limit || |Offered(ops[..k])| + |ops[k].bytes| > limit)
  }

  /** The first status a call fixes: a non-zero header code, or 200 by writing; 0 if none does. */
  function FixedStatus(ops: seq<Op>): int {
    if ops == [] then 0
    else match ops[0]
      case Body(_) => STATUS_OK
      case Header(code) => if code != 0 then code else FixedStatus(ops[1..])
  }

  class CaptureWriter {
    const sink: Sink
    const maxBytes: int
    var status: int
    var buf: seq<Byte>
    var truncated: bool
    ghost var history: seq<Op>

    /** The fields are what the whole history of calls determines. */
    ghost predicate Valid()
      reads this
    {
      && buf == Prefix(maxBytes, Offered(history))
      && (truncated <==> maxBytes > 0 && Overran(maxBytes, history))
      && status == FixedStatus(history)
    }

    constructor (sink: Sink, maxBytes: int)
      ensures Valid() && history == [] && this.sink == sink && this.maxBytes == maxBytes
    {
      this.sink := sink;
      this.maxBytes := maxBytes;
      status, buf, truncated, history := 0, [], false, [];
    }

    method WriteHeader(code: int)
      requires Valid()
      modifies this, sink
      ensures Valid() && history == old(history) + [Header(code)]
      ensures sink.calls == old(sink.calls) + [Header(code)]
    {
      FixedStatusSnoc(history, Header(code));
      OverranSnoc(maxBytes, history, Header(code));
      if status == 0 {
        status := code;
      }
      sink.WriteHeader(code);
      history := history + [Header(code)];
      assert history[..|history| - 1] == old(history);
    }

    method Write(p: seq<Byte>) returns (result: Reply)
      requires Valid()
      modifies this, sink
      ensures Valid() && history == old(history) + [Body(p)]
      ensures sink.calls == old(sink.calls) + [Body(p)] && result == sink.reply(sink.calls)
    {
      AfterWrite(maxBytes, history, p);
      if status == 0 {
        status := STATUS_OK;
      }
      if maxBytes > 0 && !truncated {
        var remaining := maxBytes - |buf|;
        if remaining > 0 {
          if |p| <= remaining {
            buf := buf + p;
          } else {
            buf := buf + p[..remaining];
            truncated := true;
          }
        } else {
          truncated := true;
        }
      }
      result := sink.Write(p);
      history := history + [Body(p)];
    }

    method BodyBytes() returns (bytes: seq<Byte>, cut: bool)
      requires Valid()
      ensures bytes == Prefix(maxBytes, Offered(history))
      ensures cut <==> maxBytes > 0 && Overran(maxBytes, history)
    {
      return buf, truncated;
    }

    method StatusCode() returns (code: int)
      requires Valid()
      ensures code == if FixedStatus(history) == 0 then STATUS_OK else FixedStatus(history)
    {
      if status == 0 {
        return STATUS_OK;
      }
      return status;
    }
  }

  /** What one more write does to the prefix, the overrun and the status. */
  lemma AfterWrite(limit: int, ops: seq<Op>, p: seq<Byte>)
    ensures Prefix(limit, Offered(ops + [Body(p)])) ==
      if limit <= 0 || |Offered(ops)| >= limit then Prefix(limit, Offered(ops))
      else Offered(ops) + if |p| <= limit - |Offered(ops)| then p else p[..limit - |Offered(ops)|]
    ensures Overran(limit, ops + [Body(p)]) <==>
      Overran(limit, ops) || |Offered(ops)| >= limit || |Offered(ops)| + |p| > limit
    ensures Overran(limit, ops) ==> |Offered(ops)| >= limit
    ensures FixedStatus(ops + [Body(p)]) == if FixedStatus(ops) != 0 then FixedStatus(ops) else STATUS_OK
  {
    FixedStatusSnoc(ops, Body(p));
    OverranSnoc(limit, ops, Body(p));
    OverranFills(limit, ops);
    OfferedSnoc(ops, p);
    PrefixGrows(limit, Offered(ops), p);
  }

  lemma OfferedSnoc(ops: seq<Op>, p: seq<Byte>)
    ensures Offered([]) == [] && Offered(ops + [Body(p)]) == Offered(ops) + p
    ensures forall code :: (ops + [Header(code)])[..|ops|] == ops && Offered(ops + [Header(code)]) == Offered(ops)
  {
  }

  lemma PrefixGrows(limit: int, bytes: seq<Byte>, p: seq<Byte>)
    ensures Prefix(limit, bytes + p) ==
      if limit <= 0 || |bytes| >= limit then Prefix(limit, bytes)
      else bytes + if |p| <= limit - |bytes| then p else p[..limit - |bytes|]
  {
  }

  lemma {:induction false} FixedStatusSnoc(ops: seq<Op>, op: Op)
    ensures FixedStatus(ops + [op]) == if FixedStatus(ops) != 0 then FixedStatus(ops) else FixedStatus([op])
  {
    if ops == [] {
      assert ops + [op] == [op];
    } else {
      assert (ops + [op])[1..] == ops[1..] + [op];
      FixedStatusSnoc(ops[1..], op);
    }
  }

  lemma OverranSnoc(limit: int, ops: seq<Op>, op: Op)
    ensures Overran(limit, ops + [op]) <==>
      Overran(limit, ops) || (op.Body? && (|Offered(ops)| >= limit || |Offered(ops)| + |op.bytes| > limit))
  {
    var all := ops + [op];
    assert all[..|ops|] == ops && all[|ops|] == op;
    assert forall k :: 0 <= k < |ops| ==> all[..k] == ops[..k] && all[k] == ops[k];
    if Overran(limit, ops) {
      var k :| 0 <= k < |ops| && ops[k].Body?
                && (|Offered(ops[..k])| >= limit || |Offered(ops[..k])| + |ops[k].bytes| > limit);
      assert all[k].Body?;
    }
  }

  lemma {:induction false} OfferedGrows(ops: seq<Op>, k: nat)
    requires k <= |ops|
    ensures Offered(ops[..k]) <= Offered(ops)
  {
    if k == |ops| {
      assert ops[..k] == ops;
    } else {
      var front := ops[..|ops| - 1];
      OfferedGrows(front, k);
      assert front[..k] == ops[..k];
    }
  }

  /** A write that overran leaves the buffer holding exactly limit bytes. */
  lemma OverranFills(limit: int, ops: seq<Op>)
    ensures Overran(limit, ops) ==> |Offered(ops)| >= limit
  {
    if Overran(limit, ops) {
      var k :| 0 <= k < |ops| && ops[k].Body?
                && (|Offered(ops[..k])| >= limit || |Offered(ops[..k])| + |ops[k].bytes| > limit);
      OfferedGrows(ops, k);
      OfferedGrows(ops, k + 1);
      assert ops[..k + 1][..k] == ops[..k];
    }
  }

  /** The truncation flag, exactly: too many bytes offered, or an empty write onto a full buffer. */
  lemma {:induction false} TruncatedExactly(limit: int, ops: seq<Op>)
    requires limit > 0
    ensures Overran(limit, ops) <==>
      |Offered(ops)| > limit
      || exists k :: 0 <= k < |ops| && ops[k] == Body([]) && |Offered(ops[..k])| == limit
  {
    if ops != [] {
      var front, last := ops[..|ops| - 1], ops[|ops| - 1];
      TruncatedExactly(limit, front);
      OverranSnoc(limit, front, last);
      assert ops == front + [last];
      assert forall k :: 0 <= k < |front| ==> front[..k] == ops[..k] && front[k] == ops[k];
    }
  }

  /** Without empty writes the flag says exactly whether more than limit bytes were offered. */
  lemma TruncatedWithoutEmptyWrites(limit: int, ops: seq<Op>)
    requires limit > 0 && Body([]) !in ops
    ensures Overran(limit, ops) <==> |Offered(ops)| > limit
  {
    TruncatedExactly(limit, ops);
  }

  /** The prefix is as long as the limit allows, and nothing for a limit that is not positive. */
  lemma PrefixExactly(limit: int, bytes: seq<Byte>)
    ensures Prefix(limit, bytes) <= bytes
    ensures |Prefix(limit, bytes)| == if limit <= 0 then 0 else if |bytes| < limit then |bytes| else limit
  {
  }

  /** The status is what the first call other than a header of code zero fixes: a header its own code,
      a body 200. */
  lemma {:induction false} FirstStatus(ops: seq<Op>, k: nat)
    requires k < |ops| && ops[k] != Header(0) && forall j :: 0 <= j < k ==> ops[j] == Header(0)
    ensures FixedStatus(ops) == if ops[k].Header? then ops[k].code else 200
  {
    if k > 0 {
      FirstStatus(ops[1..], k - 1);
    }
  }

  /** Without such a call no status is fixed, and 200 is reported. */
  lemma {:induction false} NoStatus(ops: seq<Op>)
    requires forall j :: 0 <= j < |ops| ==> ops[j] == Header(0)
    ensures FixedStatus(ops) == 0
  {
    if ops != [] { NoStatus(ops[1..]); }
  }
}
