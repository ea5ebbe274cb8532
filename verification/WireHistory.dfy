/**
 What the requests put on one broker connection say about the traffic that must follow: the
 replies to expect, and the markers and response handlers that belong to them, in order.
 */
module WireHistory {
  import opened Processor
  import opened SaslReauth


  /** The requests to which the proxy expects a reply, in order. */
  function Replying(w: seq<Request>): (e: seq<Request>)
    ensures |e| <= |w|
  {
    if w == [] then []
    else
      var r, before := w[|w| - 1], Replying(w[..|w| - 1]);
      if r.wantsReply then before + [r] else before
  }

  /** The proxy expects a reply just where the broker gives one. */
  ghost predicate PeeksRight(w: seq<Request>) {
    forall i :: 0 <= i < |w| ==> (Answers(w[i]) <==> w[i].wantsReply)
  }

  /** One marker for each framed request. */
  function MarkersOf(e: seq<Request>): (m: seq<Marker>)
    ensures |m| <= |e|
  {
    if e == [] then []
    else
      var r, before := e[|e| - 1], MarkersOf(e[..|e| - 1]);
      if r.kind == Framed then before + [MarkerOf(r)] else before
  }

  /** The handler of the first reply, and of the reply that follows each one. */
  function HandlersOf(e: seq<Request>): (h: seq<ResponseHandler>)
    ensures |h| == |e| + 1
  {
    if e == [] then [DefaultResponseHandler]
    else HandlersOf(e[..|e| - 1]) + [HandlerAfter(e[|e| - 1])]
  }

  function RawCount(e: seq<Request>): (n: nat)
    ensures n + |MarkersOf(e)| == |e|
  {
    if e == [] then 0
    else RawCount(e[..|e| - 1]) + if e[|e| - 1].kind == Raw then 1 else 0
  }

  predicate IsProxyAuthenticate(r: Request) {
    r.origin == Proxy && r.key == API_KEY_SASL_AUTHENTICATE
  }

  /** The number of the proxy's own authenticate requests. */
  function AuthCount(e: seq<Request>): (n: nat) {
    if e == [] then 0
    else AuthCount(e[..|e| - 1]) + if IsProxyAuthenticate(e[|e| - 1]) then 1 else 0
  }

  // ---------------------------------------------------------------- one more request

  lemma MoreWire(w: seq<Request>, r: Request)
    ensures Replying(w + [r]) == if r.wantsReply then Replying(w) + [r] else Replying(w)
  {
    assert (w + [r])[..|w|] == w;
  }

  lemma MoreExpected(e: seq<Request>, r: Request)
    ensures MarkersOf(e + [r]) == if r.kind == Framed then MarkersOf(e) + [MarkerOf(r)] else MarkersOf(e)
    ensures HandlersOf(e + [r]) == HandlersOf(e) + [HandlerAfter(r)]
    ensures RawCount(e + [r]) == RawCount(e) + if r.kind == Raw then 1 else 0
    ensures AuthCount(e + [r]) == AuthCount(e) + if IsProxyAuthenticate(r) then 1 else 0
  {
    assert (e + [r])[..|e|] == e;
  }

  // ---------------------------------------------------------------- prefixes

  lemma {:induction false} ReplyingPrefix(w: seq<Request>, n: nat)
    requires n <= |w|
    ensures Replying(w[..n]) <= Replying(w)
  {
    if n < |w| {
      ReplyingPrefix(w[..|w| - 1], n);
      assert w[..|w| - 1][..n] == w[..n];
    } else {
      assert w[..n] == w;
    }
  }

  lemma {:induction false} ExpectedPrefix(e: seq<Request>, n: nat)
    requires n <= |e|
    ensures MarkersOf(e[..n]) <= MarkersOf(e)
    ensures RawCount(e[..n]) <= RawCount(e)
    ensures AuthCount(e[..n]) <= AuthCount(e)
    ensures HandlersOf(e[..n]) <= HandlersOf(e)
  {
    if n < |e| {
      ExpectedPrefix(e[..|e| - 1], n);
      assert e[..|e| - 1][..n] == e[..n];
    } else {
      assert e[..n] == e;
    }
  }

  /** The marker of a framed request stands behind those of the framed requests before it. */
  lemma MarkerAt(e: seq<Request>, n: nat)
    requires n < |e|
    ensures e[n].kind == Framed ==>
              |MarkersOf(e[..n])| < |MarkersOf(e)| && MarkersOf(e)[|MarkersOf(e[..n])|] == MarkerOf(e[n])
              && |MarkersOf(e[..n + 1])| == |MarkersOf(e[..n])| + 1
    ensures e[n].kind == Raw ==> |MarkersOf(e[..n + 1])| == |MarkersOf(e[..n])|
    ensures RawCount(e[..n + 1]) == RawCount(e[..n]) + if e[n].kind == Raw then 1 else 0
    ensures AuthCount(e[..n + 1]) == AuthCount(e[..n]) + if IsProxyAuthenticate(e[n]) then 1 else 0
  {
    assert e[..n + 1] == e[..n] + [e[n]];
    MoreExpected(e[..n], e[n]);
    ExpectedPrefix(e, n + 1);
  }

  lemma HandlerAt(e: seq<Request>, n: nat)
    requires n <= |e|
    ensures HandlersOf(e)[n] == if n == 0 then DefaultResponseHandler else HandlerAfter(e[n - 1])
  {
    hide HandlerAfter, MarkersOf, RawCount, AuthCount;
    ExpectedPrefix(e, n);
    if n > 0 {
      assert HandlersOf(e[..n])[n] == HandlerAfter(e[..n][n - 1]);
    }
  }
}
