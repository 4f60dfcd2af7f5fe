/** The bearer-token gate in front of GET /api/auth/me. */
module Auth {
  import opened Wrappers
  import opened JsText

  /** The identity claims a token carries. */
  datatype Claims = Claims(id: int, email: string, name: string)

  /** The gate's verdict: no usable token (401), a token the verifier
      refuses (403), or the decoded claims handed on to the route. */
  datatype Gate = MissingToken | BadToken | Admitted(claims: Claims)

  /** `authHeader && authHeader.split(' ')[1]`, kept only when it is a
      non-empty string. The scheme word before the first space is not
      looked at. */
  function ExtractToken(header: Option<string>): (t: Option<string>)
    ensures t.Some? ==> t.value != [] && ' ' !in t.value
  {
    match header
    case None => None
    case Some(h) =>
      var pieces := Split(h, ' ');
      if |pieces| > 1 && pieces[1] != [] then Some(pieces[1]) else None
  }

  /** `t` sits in `h` right after the first space, which is at `i`, and runs
      up to the next space or the end of the header. */
  ghost predicate TokenAt(h: string, i: int, t: string) {
    && 0 <= i && i + 1 + |t| <= |h|
    && h[i] == ' ' && (forall k :: 0 <= k < i ==> h[k] != ' ')
    && h[i + 1..i + 1 + |t|] == t && t != [] && ' ' !in t
    && (i + 1 + |t| == |h| || h[i + 1 + |t|] == ' ')
  }

  /** The first piece of a split is the longest separator-free prefix. */
  lemma FirstPiece(b: string, t: string)
    requires |t| <= |b| && b[..|t|] == t && ' ' !in t
    requires |t| == |b| || b[|t|] == ' '
    ensures Split(b, ' ')[0] == t
  {
    assert forall k :: 0 <= k < |t| ==> b[k] == t[k];
    if ' ' in b {
      var j := IndexOf(b, ' ');
      assert forall k :: 0 <= k < |t| ==> t[k] in t;
    } else {
      assert forall k :: 0 <= k < |b| ==> b[k] in b;
      assert b == b[..|b|];
    }
  }

  /** Which header yields which token, stated without `split`: the token is
      the non-empty run of non-space characters after the first space. */
  lemma ExtractTokenMeaning(h: string, t: string)
    ensures ExtractToken(Some(h)) == Some(t) <==> exists i :: TokenAt(h, i, t)
  {
    if ExtractToken(Some(h)) == Some(t) {
      ExtractedTokenIsAt(h, t);
    }
    if i :| TokenAt(h, i, t) {
      TokenAtIsExtracted(h, i, t);
    }
  }

  lemma ExtractedTokenIsAt(h: string, t: string)
    requires ExtractToken(Some(h)) == Some(t)
    ensures TokenAt(h, IndexOf(h, ' '), t)
  {
    var i := IndexOf(h, ' ');
    var b := h[i + 1..];
    assert Split(h, ' ') == [h[..i]] + Split(b, ' ');
    var p := Split(b, ' ')[0];
    assert p == t;
    if ' ' in b {
      var j := IndexOf(b, ' ');
      assert p == b[..j];
    }
  }

  lemma TokenAtIsExtracted(h: string, i: int, t: string)
    requires TokenAt(h, i, t)
    ensures ExtractToken(Some(h)) == Some(t)
  {
    assert ' ' in h by {
      assert h[i] in h;
    }
    var first := IndexOf(h, ' ');
    assert first == i;
    var b := h[i + 1..];
    assert b[..|t|] == t;
    FirstPiece(b, t);
    assert Split(h, ' ') == [h[..i]] + Split(b, ' ');
  }

  /** `jwt.verify` run on the extracted token, with `verify` standing for the
      signature and expiry check at time `now` (`None` when it throws). */
  function Authenticate(header: Option<string>, verify: (string, int) -> Option<Claims>, now: int): (g: Gate)
    ensures g.Admitted? ==> ExtractToken(header).Some? && verify(ExtractToken(header).value, now) == Some(g.claims)
  {
    match ExtractToken(header)
    case None => MissingToken
    case Some(token) =>
      match verify(token, now)
      case None => BadToken
      case Some(claims) => Admitted(claims)
  }

  /** Without a usable token the verdict is 401 whatever the verifier would
      say: the verifier is never consulted. */
  lemma MissingTokenIgnoresVerifier(header: Option<string>, v1: (string, int) -> Option<Claims>,
                                    v2: (string, int) -> Option<Claims>, now: int)
    requires ExtractToken(header).None?
    ensures Authenticate(header, v1, now) == Authenticate(header, v2, now) == MissingToken
  {
  }

  /** With a usable token, the verdict is 403 exactly when the verifier
      refuses it, and otherwise carries the claims the verifier decoded. */
  lemma TokenDecidesByVerifier(header: Option<string>, verify: (string, int) -> Option<Claims>, now: int)
    requires ExtractToken(header).Some?
    ensures Authenticate(header, verify, now) == BadToken <==> verify(ExtractToken(header).value, now).None?
    ensures verify(ExtractToken(header).value, now).Some? ==>
      Authenticate(header, verify, now) == Admitted(verify(ExtractToken(header).value, now).value)
  {
  }
}
