/** PreParseGetParam (HttpConnection.cpp): the path and the parameters of a GET target. */
module Http {
  import opened Bytes
  import opened UrlCodec

  const AMPERSAND: Byte := 0x26
  const EQUALS: Byte := 0x3D
  const QUESTION: Byte := 0x3F

  type Params = map<Text, Text>

  /** find: the index of the first b, or |s| for npos. */
  function Find(s: Text, b: Byte): (i: nat)
    ensures i <= |s| && b !in s[..i] && (i < |s| ==> s[i] == b)
  {
    if s == [] || s[0] == b then 0
    else
      var j := Find(s[1..], b);
      assert s[..j + 1] == [s[0]] + s[1..][..j];
      1 + j
  }

  // ----- what a query means -----

  /** All pieces between '&', also the empty ones. */
  function Split(q: Text): seq<Text>
    decreases |q|
  {
    var i := Find(q, AMPERSAND);
    if i == |q| then [q] else [q[..i]] + Split(q[i + 1..])
  }

  /** What a piece adds: nothing without '=', else the decoded sides of its first '='. None
      where an assert of the decoder fails. */
  function Store(m: Params, piece: Text): Option<Params> {
    var i := Find(piece, EQUALS);
    if i == |piece| then Some(m)
    else
      var k, v := Decoded(piece[..i]), Decoded(piece[i + 1..]);
      if k.None? || v.None? then None else Some(m[k.value := v.value])
  }

  /** Later pieces override earlier ones; the first that cannot be decoded ends it all. */
  function StoreAll(m: Params, pieces: seq<Text>): Option<Params>
    decreases |pieces|
  {
    if pieces == [] then Some(m)
    else
      var m' := Store(m, pieces[0]);
      if m'.None? then None else StoreAll(m'.value, pieces[1..])
  }

  datatype Target = Target(url: Text, params: Option<Params>)

  /** The target up to the first '?', and the parameters known before with those of the
      query added. */
  function Meaning(m: Params, uri: Text): Target {
    var q := Find(uri, QUESTION);
    Target(uri[..q], if q == |uri| then Some(m) else StoreAll(m, Split(uri[q + 1..])))
  }

  // ----- the parser -----

  class HttpConnection {
    var getUrl: Text
    var getParams: Params

    constructor ()
      ensures getUrl == [] && getParams == map[]
    {
      getUrl, getParams := [], map[];
    }

    /** ok is false where an assert of the decoder ends the process. */
    method PreParseGetParam(uri: Text) returns (ok: bool)
      modifies this
      ensures var t := Meaning(old(getParams), uri);
        && getUrl == t.url && (ok <==> t.params.Some?)
        && (ok ==> getParams == t.params.value)
      ensures '?' as Byte !in getUrl
      ensures if '?' as Byte !in uri then ok && getUrl == uri && getParams == old(getParams)
        else getUrl + ['?' as Byte] <= uri
    {
      hide Split, Store, StoreAll;
      var queryPos := Find(uri, QUESTION);
      if queryPos == |uri| {
        getUrl := uri;
        return true;
      }
      getUrl := uri[..queryPos];
      var queryString := uri[queryPos + 1..];
      ghost var meaning := StoreAll(getParams, Split(queryString));
      var pos := Find(queryString, AMPERSAND);
      while pos < |queryString|
        invariant pos == Find(queryString, AMPERSAND) && getUrl == uri[..queryPos]
        invariant StoreAll(getParams, Split(queryString)) == meaning
        decreases |queryString|
      {
        StoreSplit(getParams, queryString);
        ok := StorePair(queryString[..pos]);
        if !ok {
          return;
        }
        queryString := queryString[pos + 1..];
        pos := Find(queryString, AMPERSAND);
      }
      StoreSplit(getParams, queryString);
      ok := true;
      if queryString != [] {
        ok := StorePair(queryString);
      }
    }

    /** The part both branches of the parser share. */
    method StorePair(piece: Text) returns (ok: bool)
      modifies this`getParams
      ensures var r := Store(old(getParams), piece);
        (ok <==> r.Some?) && (ok ==> getParams == r.value)
    {
      var eqPos := Find(piece, EQUALS);
      if eqPos < |piece| {
        var okKey, key := UrlDecode(piece[..eqPos]);
        if !okKey {
          return false;
        }
        var okValue, value := UrlDecode(piece[eqPos + 1..]);
        if !okValue {
          return false;
        }
        getParams := getParams[key := value];
      }
      ok := true;
    }
  }

  /** One turn of the loop, and what is left after the last. */
  lemma StoreSplit(m: Params, q: Text)
    ensures var i := Find(q, AMPERSAND);
      StoreAll(m, Split(q)) ==
        if i == |q| then Store(m, q)
        else if Store(m, q[..i]).None? then None
        else StoreAll(Store(m, q[..i]).value, Split(q[i + 1..]))
    ensures Store(m, []) == Some(m)
  {
    var i := Find(q, AMPERSAND);
    if i == |q| {
      OnePiece(m, q);
    } else {
      assert Split(q)[0] == q[..i] && Split(q)[1..] == Split(q[i + 1..]);
    }
  }

  lemma OnePiece(m: Params, piece: Text)
    ensures StoreAll(m, [piece]) == Store(m, piece)
  {
  }

  function Joined(pieces: seq<Text>): Text {
    if pieces == [] then []
    else if |pieces| == 1 then pieces[0]
    else pieces[0] + ([AMPERSAND] + Joined(pieces[1..]))
  }

  /** Split cuts at every '&' and nowhere else: the pieces are free of it, and with it in
      between they are the query again. */
  lemma {:induction false} SplitJoins(q: Text)
    ensures Split(q) != [] && Joined(Split(q)) == q
    ensures forall k :: 0 <= k < |Split(q)| ==> AMPERSAND !in Split(q)[k]
    decreases |q|
  {
    hide Joined, Find;
    var i := Find(q, AMPERSAND);
    if i < |q| {
      var tail := Split(q[i + 1..]);
      SplitJoins(q[i + 1..]);
      JoinedCons(q[..i], tail);
      CutAt(q, i);
    } else {
      JoinedCons(q, []);
    }
  }

  lemma CutAt(q: Text, i: nat)
    requires i < |q|
    ensures q == q[..i] + ([q[i]] + q[i + 1..])
  {
  }

  lemma JoinedCons(first: Text, rest: seq<Text>)
    ensures Joined([first]) == first
    ensures rest != [] ==> Joined([first] + rest) == first + ([AMPERSAND] + Joined(rest))
  {
    assert ([first] + rest)[1..] == rest;
  }

  // ----- printing and parsing -----

  datatype Pair = Pair(key: Text, value: Text)

  function PrintPair(p: Pair): Text {
    Encoded(p.key) + [EQUALS] + Encoded(p.value)
  }

  /** enc(k)=enc(v) for every pair, with '&' between. */
  function PrintQuery(ps: seq<Pair>): Text {
    if ps == [] then []
    else if |ps| == 1 then PrintPair(ps[0])
    else PrintPair(ps[0]) + ([AMPERSAND] + PrintQuery(ps[1..]))
  }

  function LastWins(m: Params, ps: seq<Pair>): Params
    decreases |ps|
  {
    if ps == [] then m else LastWins(m[ps[0].key := ps[0].value], ps[1..])
  }

  lemma {:induction false} FindIn(a: Text, b: Byte, rest: Text)
    requires b !in a
    ensures Find(a + rest, b) == |a| + Find(rest, b)
  {
    if a == [] {
      assert a + rest == rest;
    } else {
      assert (a + rest)[1..] == a[1..] + rest;
      FindIn(a[1..], b, rest);
    }
  }

  lemma EncodedHasNo(s: Text, b: Byte)
    requires b in {AMPERSAND, EQUALS, QUESTION}
    ensures b !in Encoded(s)
  {
    if b in Encoded(s) { EncodedAlphabet(s, b); }
  }

  /** A printed pair is one piece, and storing it stores the pair. */
  lemma StorePrinted(m: Params, p: Pair)
    ensures Store(m, PrintPair(p)) == Some(m[p.key := p.value])
    ensures AMPERSAND !in PrintPair(p)
  {
    var k, v := Encoded(p.key), Encoded(p.value);
    EncodedHasNo(p.key, EQUALS);
    EncodedHasNo(p.key, AMPERSAND);
    EncodedHasNo(p.value, AMPERSAND);
    assert PrintPair(p) == k + ([EQUALS] + v);
    FindIn(k, EQUALS, [EQUALS] + v);
    assert PrintPair(p)[..|k|] == k && PrintPair(p)[|k| + 1..] == v;
    DecodeEncoded(p.key);
    DecodeEncoded(p.value);
  }

  lemma SplitPiece(piece: Text, rest: Text)
    requires AMPERSAND !in piece
    ensures Split(piece) == [piece]
    ensures Split(piece + ([AMPERSAND] + rest)) == [piece] + Split(rest)
  {
    FindIn(piece, AMPERSAND, []);
    assert piece + [] == piece;
    FindIn(piece, AMPERSAND, [AMPERSAND] + rest);
    var q := piece + ([AMPERSAND] + rest);
    assert q[..|piece|] == piece && q[|piece| + 1..] == rest;
  }

  lemma StoreFirst(m: Params, piece: Text, pieces: seq<Text>)
    requires Store(m, piece).Some?
    ensures StoreAll(m, [piece] + pieces) == StoreAll(Store(m, piece).value, pieces)
  {
    assert ([piece] + pieces)[1..] == pieces;
  }

  lemma {:induction false} ParsePrinted(m: Params, ps: seq<Pair>)
    ensures StoreAll(m, Split(PrintQuery(ps))) == Some(LastWins(m, ps))
    decreases |ps|
  {
    hide Split, Store, StoreAll, PrintPair;
    if ps == [] {
      NothingPrinted(m);
    } else {
      var piece, rest := PrintPair(ps[0]), PrintQuery(ps[1..]);
      var m' := m[ps[0].key := ps[0].value];
      StorePrinted(m, ps[0]);
      SplitPiece(piece, rest);
      if |ps| == 1 {
        OnePiece(m, piece);
        assert LastWins(m', ps[1..]) == m';
      } else {
        StoreFirst(m, piece, Split(rest));
        ParsePrinted(m', ps[1..]);
      }
    }
  }

  lemma NothingPrinted(m: Params)
    ensures StoreAll(m, Split([])) == Some(m)
  {
    OnePiece(m, []);
    assert Split([]) == [[]];
  }

  /** The round trip: the target printed for a '?'-free path and any pairs means that path
      and those pairs, the last one of each key winning. */
  lemma QueryRoundTrip(m: Params, path: Text, ps: seq<Pair>)
    requires QUESTION !in path
    ensures Meaning(m, path + ([QUESTION] + PrintQuery(ps))) == Target(path, Some(LastWins(m, ps)))
  {
    TargetParts(path, PrintQuery(ps));
    ParsePrinted(m, ps);
    hide Find, PrintQuery, LastWins, StoreAll, Split;
  }

  lemma TargetParts(path: Text, q: Text)
    requires QUESTION !in path
    ensures var uri := path + ([QUESTION] + q);
      Find(uri, QUESTION) == |path| && uri[..|path|] == path && uri[|path| + 1..] == q
  {
    FindIn(path, QUESTION, [QUESTION] + q);
  }

  // ----- targets of any other form -----

  /** Without a '?' the target is the path, and no parameter is added. */
  lemma NoQuery(m: Params, path: Text)
    requires '?' as Byte !in path
    ensures Meaning(m, path) == Target(path, Some(m))
  {
  }

  lemma FindNone(a: Text, b: Byte)
    requires b !in a
    ensures Find(a, b) == |a|
  {
  }

  lemma FindCut(a: Text, b: Byte, rest: Text)
    requires b !in a
    ensures var s := a + ([b] + rest); Find(s, b) == |a| && s[..|a|] == a && s[|a| + 1..] == rest
  {
    FindIn(a, b, [b] + rest);
  }

  /** What a piece adds: nothing without '=', whatever else it contains, and otherwise what
      is before and behind its first '=', whether or not there is another. */
  lemma PieceMeans(m: Params, key: Text, value: Text)
    requires '=' as Byte !in key
    ensures Store(m, key) == Some(m)
    ensures Store(m, key + (['=' as Byte] + value)) ==
      if Decoded(key).Some? && Decoded(value).Some? then Some(m[Decoded(key).value := Decoded(value).value])
      else None
  {
    hide Decoded, Find;
    FindNone(key, EQUALS);
    FindCut(key, EQUALS, value);
  }

  /** A query is the list of its pieces, taken in order: the last one is stored behind the
      others, and none after one that cannot be decoded. */
  lemma {:induction false} PiecesInOrder(m: Params, pieces: seq<Text>, last: Text)
    ensures StoreAll(m, []) == Some(m)
    ensures StoreAll(m, pieces + [last]) ==
      if StoreAll(m, pieces).None? then None else Store(StoreAll(m, pieces).value, last)
    decreases |pieces|
  {
    hide Store;
    if pieces == [] {
      assert pieces + [last] == [last];
      OnePiece(m, last);
    } else {
      assert (pieces + [last])[1..] == pieces[1..] + [last];
      if Store(m, pieces[0]).Some? {
        PiecesInOrder(Store(m, pieces[0]).value, pieces[1..], last);
      }
    }
  }

  /** Any target with a '?': the path before the first one, then any pieces free of '&',
      with an '&' between each two. */
  lemma QueryMeansPieces(m: Params, path: Text, pieces: seq<Text>)
    requires '?' as Byte !in path && pieces != []
    requires forall k :: 0 <= k < |pieces| ==> '&' as Byte !in pieces[k]
    ensures Meaning(m, path + (['?' as Byte] + Joined(pieces))) == Target(path, StoreAll(m, pieces))
  {
    hide Find, Joined, Split, StoreAll;
    TargetParts(path, Joined(pieces));
    JoinedSplits(pieces);
  }

  lemma {:induction false} JoinedSplits(pieces: seq<Text>)
    requires pieces != [] && forall k :: 0 <= k < |pieces| ==> AMPERSAND !in pieces[k]
    ensures Split(Joined(pieces)) == pieces
    decreases |pieces|
  {
    hide Find, Joined, Split;
    var first, rest := pieces[0], pieces[1..];
    assert pieces == [first] + rest;
    JoinedCons(first, rest);
    if rest == [] {
      assert pieces == [first];
      SplitPiece(first, []);
    } else {
      JoinedSplits(rest);
      SplitPiece(first, Joined(rest));
    }
  }

  /** The map of a list of pairs holds, for each key, the value of its last pair. */
  lemma {:induction false} LastWinsIsLast(m: Params, ps: seq<Pair>, j: nat)
    requires j < |ps| && forall i :: j < i < |ps| ==> ps[i].key != ps[j].key
    ensures ps[j].key in LastWins(m, ps) && LastWins(m, ps)[ps[j].key] == ps[j].value
    decreases |ps|
  {
    var m' := m[ps[0].key := ps[0].value];
    if j == 0 {
      OthersKept(m', ps[1..], ps[0].key);
    } else {
      LastWinsIsLast(m', ps[1..], j - 1);
    }
  }

  lemma {:induction false} OthersKept(m: Params, ps: seq<Pair>, k: Text)
    requires forall i :: 0 <= i < |ps| ==> ps[i].key != k
    ensures k in LastWins(m, ps) <==> k in m
    ensures k in m ==> LastWins(m, ps)[k] == m[k]
    decreases |ps|
  {
    if ps != [] {
      OthersKept(m[ps[0].key := ps[0].value], ps[1..], k);
    }
  }
}
