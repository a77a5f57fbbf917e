/**
 * How the request handlers of main.c read a request URI: `strtok` on '&'
 * cuts it into tokens, the first token (the route path) is dropped, and
 * `strtok_r` on '=' cuts each remaining token into a key and a value.
 */
module Query {
  import opened Options
  import opened Text

  datatype Pair = Pair(key: string, value: string)

  /**
   * `key = strtok_r(token, "=", &value)`: leading '=' are skipped, the key
   * runs to the next '=', and the value is everything after that '=' (further
   * '=' included), or empty when the key ends the token. A token made only of
   * '=' yields no key at all (strtok_r returns NULL).
   */
  function SplitPair(token: string): (r: Option<Pair>)
    ensures r.None? <==> forall i | 0 <= i < |token| :: token[i] == '='
    ensures r.Some? ==> r.value.key != [] && '=' !in r.value.key
  {
    var t := DropLeading(token, '=');
    if t == [] then None
    else
      var n := RunLength(t, '=');
      Some(Pair(t[..n], if n < |t| then t[n + 1..] else []))
  }

  /** strtok_r skips a leading '=': `=width=5` splits as `width=5` does. */
  lemma SplitPairSkipsLeadingSeparator(t: string)
    ensures SplitPair("=" + t) == SplitPair(t)
  {
    var s := "=" + t;
    assert s[0] == '=' && s[1..] == t;
    assert DropLeading(s, '=') == DropLeading(t, '=');
  }

  /** A key as strtok_r yields it: non-empty and free of '='. */
  predicate IsKeyText(k: string) {
    k != [] && '=' !in k
  }

  /** A pair a client can write into a URI: a key as above, and no '&' in either part. */
  predicate WellFormed(p: Pair) {
    IsKeyText(p.key) && '&' !in p.key && '&' !in p.value
  }

  /** The pairs of the tokens `ts` in order; tokens with no key contribute none. */
  function PairsOf(ts: seq<string>): (ps: seq<Pair>)
    ensures |ps| <= |ts|
    ensures forall i | 0 <= i < |ps| :: IsKeyText(ps[i].key)
  {
    if ts == [] then []
    else PairsOf(ts[..|ts| - 1]) + ToSeq(SplitPair(ts[|ts| - 1]))
  }

  /**
   * The key/value pairs a handler's loop applies for the request `uri`: the
   * '&'-tokens after the first, each split on '='. The model visits each real
   * token exactly once (see LoopPairsAsWritten for what the C loop does).
   */
  function RequestPairs(uri: string): (ps: seq<Pair>)
    ensures forall i | 0 <= i < |ps| :: IsKeyText(ps[i].key)
  {
    var ts := Tokens(uri, '&');
    if ts == [] then [] else PairsOf(ts[1..])
  }

  /** A pair as a client writes it into a URI. */
  function Render(p: Pair): string {
    p.key + "=" + p.value
  }

  function RenderAll(ps: seq<Pair>): (ts: seq<string>)
    ensures |ts| == |ps|
  {
    if ps == [] then [] else RenderAll(ps[..|ps| - 1]) + [Render(ps[|ps| - 1])]
  }

  /** `key=value` splits back into that key and value, whatever '=' the value holds. */
  lemma SplitPairOfRender(p: Pair)
    requires IsKeyText(p.key)
    ensures SplitPair(Render(p)) == Some(p)
  {
    var s := Render(p);
    assert s[0] == p.key[0];
    assert DropLeading(s, '=') == s;
    RunLengthOfPrefix(p.key, "=" + p.value, '=');
    assert s == p.key + ("=" + p.value);
    assert s[..|p.key|] == p.key;
    assert s[|p.key| + 1..] == p.value;
  }

  /** A token without '=' is a key with an empty value (so `atoi` reads 0 from it). */
  lemma SplitPairWithoutSeparator(t: string)
    requires t != [] && '=' !in t
    ensures SplitPair(t) == Some(Pair(t, []))
  {
    assert t[0] != '=';
    assert DropLeading(t, '=') == t;
    RunLengthOfPrefix(t, [], '=');
    assert t + [] == t;
  }

  lemma RenderWellFormed(p: Pair)
    requires WellFormed(p)
    ensures Render(p) != [] && '&' !in Render(p)
  {
    assert Render(p) == p.key + ("=" + p.value);
  }

  lemma {:induction false} RenderAllWellFormed(ps: seq<Pair>)
    requires forall i | 0 <= i < |ps| :: WellFormed(ps[i])
    ensures forall i | 0 <= i < |ps| :: RenderAll(ps)[i] != [] && '&' !in RenderAll(ps)[i]
  {
    if ps != [] {
      var init := ps[..|ps| - 1];
      RenderAllWellFormed(init);
      RenderWellFormed(ps[|ps| - 1]);
    }
  }

  lemma PairsOfSnoc(ts: seq<string>, t: string)
    ensures PairsOf(ts + [t]) == PairsOf(ts) + ToSeq(SplitPair(t))
  {
    assert (ts + [t])[..|ts|] == ts;
  }

  /** One more token read by a handler's loop adds its pair, if it has one. */
  lemma PairsOfStep(ts: seq<string>, i: nat)
    requires 1 <= i < |ts|
    ensures PairsOf(ts[1..i + 1]) == PairsOf(ts[1..i]) + ToSeq(SplitPair(ts[i]))
  {
    assert ts[1..i + 1] == ts[1..i] + [ts[i]];
    PairsOfSnoc(ts[1..i], ts[i]);
  }

  /** A handler's loop over all tokens after the path reads the request's pairs. */
  lemma PairsOfAllTokens(uri: string)
    requires Tokens(uri, '&') != []
    ensures PairsOf(Tokens(uri, '&')[1..|Tokens(uri, '&')|]) == RequestPairs(uri)
  {
    var ts := Tokens(uri, '&');
    assert ts[1..|ts|] == ts[1..];
  }

  lemma RenderAllSnoc(ps: seq<Pair>, p: Pair)
    ensures RenderAll(ps + [p]) == RenderAll(ps) + [Render(p)]
  {
    assert (ps + [p])[..|ps|] == ps;
  }

  lemma {:induction false} PairsOfRenderAll(ps: seq<Pair>)
    requires forall i | 0 <= i < |ps| :: IsKeyText(ps[i].key)
    ensures PairsOf(RenderAll(ps)) == ps
  {
    if ps != [] {
      var init, last := ps[..|ps| - 1], ps[|ps| - 1];
      assert ps == init + [last];
      PairsOfRenderAll(init);
      RenderAllSnoc(init, last);
      PairsOfSnoc(RenderAll(init), Render(last));
      SplitPairOfRender(last);
    }
  }

  /** The tokens of a URI built from a path and well-formed pairs: the path, then each pair as written. */
  lemma TokensOfRequest(path: string, ps: seq<Pair>)
    requires path != [] && '&' !in path
    requires forall i | 0 <= i < |ps| :: WellFormed(ps[i])
    ensures Tokens(Join([path] + RenderAll(ps), '&'), '&') == [path] + RenderAll(ps)
  {
    var rs := RenderAll(ps);
    RenderAllWellFormed(ps);
    ConsTokens(path, rs);
    TokensOfJoin([path] + rs, '&');
  }

  lemma ConsTokens(path: string, rs: seq<string>)
    requires path != [] && '&' !in path
    requires forall i | 0 <= i < |rs| :: rs[i] != [] && '&' !in rs[i]
    ensures forall i | 0 <= i < |[path] + rs| :: ([path] + rs)[i] != [] && '&' !in ([path] + rs)[i]
  {
  }

  /**
   * A URI built from a path and well-formed pairs is read back into exactly
   * those pairs, in order, each once.
   */
  lemma RequestPairsOfJoin(path: string, ps: seq<Pair>)
    requires path != [] && '&' !in path
    requires forall i | 0 <= i < |ps| :: WellFormed(ps[i])
    ensures RequestPairs(Join([path] + RenderAll(ps), '&')) == ps
  {
    var ts := [path] + RenderAll(ps);
    TokensOfRequest(path, ps);
    assert ts[1..] == RenderAll(ps);
    PairsOfRenderAll(ps);
  }

  // The loop as written in main.c

  /**
   * The pair the C loop visits after the last real token. Once `strtok(NULL,
   * "&")` returns NULL the loop body still runs: `strtok_r(NULL, "=", &value)`
   * resumes from the save pointer left by the previous pair, so the last value
   * is split on '=' once more and read as a key and a value.
   */
  function TrailingPair(uri: string): Option<Pair> {
    TrailingPairOf(Tokens(uri, '&'))
  }

  /** The trailing pair for the tokens `ts`: none unless some pair token follows the path. */
  function TrailingPairOf(ts: seq<string>): Option<Pair> {
    if |ts| < 2 then None else Resplit(SplitPair(ts[|ts| - 1]))
  }

  /** The value of the last pair read, split on '=' once more. */
  function Resplit(last: Option<Pair>): Option<Pair> {
    match last
    case None => None
    case Some(p) => SplitPair(p.value)
  }

  /** Every pair the loops of main.c:563-598 and main.c:635-679 visit, the trailing pass included. */
  function LoopPairsAsWritten(uri: string): seq<Pair> {
    RequestPairs(uri) + ToSeq(TrailingPair(uri))
  }

  lemma RenderAllLast(ps: seq<Pair>)
    requires ps != []
    ensures RenderAll(ps)[|ps| - 1] == Render(ps[|ps| - 1])
  {
    var init, last := ps[..|ps| - 1], ps[|ps| - 1];
    assert ps == init + [last];
    RenderAllSnoc(init, last);
  }

  /**
   * As written, the loop reads every pair of the request once and then the
   * last value once more, split on '=' as if it were a pair of its own.
   */
  lemma LoopPairsAsWrittenOfJoin(path: string, ps: seq<Pair>)
    requires path != [] && '&' !in path && ps != []
    requires forall i | 0 <= i < |ps| :: WellFormed(ps[i])
    ensures LoopPairsAsWritten(Join([path] + RenderAll(ps), '&'))
         == ps + ToSeq(SplitPair(ps[|ps| - 1].value))
  {
    var ts := [path] + RenderAll(ps);
    RenderAllLast(ps);
    TokensOfRequest(path, ps);
    SplitPairOfRender(ps[|ps| - 1]);
    assert TrailingPair(Join(ts, '&')) == TrailingPairOf(ts);
    RequestPairsOfJoin(path, ps);
  }
}
