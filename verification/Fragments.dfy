/**
 * A command payload cut into protocol v2 command tokens: a four-octet header (version, message type,
 * keep-alive, continue status) before each piece.
 */
module Fragments {
  import opened Bytes
  import opened Protocol

  function Piece(token: Data): (d: Data)
  {
    if |token| < 4 then [] else token[4..]
  }

  /** The payload carried by a list of command tokens. */
  function Payload(tokens: seq<Data>): (d: Data)
  {
    if tokens == [] then [] else Piece(tokens[0]) + Payload(tokens[1..])
  }

  lemma {:induction false} PayloadSnoc(tokens: seq<Data>, token: Data)
    ensures Payload(tokens + [token]) == Payload(tokens) + Piece(token)
  {
    var all := tokens + [token];
    if tokens == [] {
      assert all[1..] == [];
    } else {
      var rest := tokens[1..];
      PayloadSnoc(rest, token);
      assert all[1..] == rest + [token];
    }
  }

  predicate CommandToken(token: Data, keepalive: byte)
  {
    && 4 < |token| <= TOKEN_MAX_DATA
    && token[0] == 2
    && token[1] == MESSAGE_COMMAND
    && token[2] == keepalive
  }

  /** The continue status of token i of n: 0 alone, otherwise 1, then 2s, then 3. */
  function Label(i: nat, n: nat): (s: byte)
    requires i < n
  {
    if n == 1 then 0 else if i == 0 then 1 else if i < n - 1 then 2 else 3
  }

  /** The tokens are a labelled cut of the payload into non-empty pieces of legal size. */
  predicate IsCut(tokens: seq<Data>, keepalive: byte, payload: Data)
  {
    && tokens != []
    && (forall i :: 0 <= i < |tokens| ==> CommandToken(tokens[i], keepalive))
    && (forall i :: 0 <= i < |tokens| ==> tokens[i][3] == Label(i, |tokens|))
    && Payload(tokens) == payload
  }

  /** The first tokens of a cut, none of them the last one. */
  predicate IsPartialCut(tokens: seq<Data>, keepalive: byte, payload: Data)
  {
    && (forall i :: 0 <= i < |tokens| ==> CommandToken(tokens[i], keepalive))
    && (forall i :: 0 <= i < |tokens| ==> tokens[i][3] == if i == 0 then 1 else 2)
    && Payload(tokens) == payload
  }

  /** A token extends a partial cut to a longer partial cut, or closes it. */
  lemma CutStep(tokens: seq<Data>, keepalive: byte, payload: Data, token: Data)
    requires IsPartialCut(tokens, keepalive, payload) && CommandToken(token, keepalive)
    ensures token[3] == (if tokens == [] then 1 else 2)
        ==> IsPartialCut(tokens + [token], keepalive, payload + token[4..])
    ensures token[3] == (if tokens == [] then 0 else 3)
        ==> IsCut(tokens + [token], keepalive, payload + token[4..])
  {
    PayloadSnoc(tokens, token);
  }
}
