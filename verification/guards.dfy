/** The authorization hooks of the server (back/src/plugins/jwt.ts) and the
    way routes chain them. A hook either lets the request through or rejects
    it with a status; a route runs its hooks in order and the first rejection
    ends the request. */
module Guards {
  import opened Wrappers
  import opened Js
  import Http

  /** The payload of a verified token (`request.user`). The hooks read its
      `rol` and `cc` fields; either may be missing from the payload, which is
      whatever object the login route signed. */
  datatype Claims = Claims(rol: JsValue, cc: JsValue)

  /** Route params or a request body, as a JSON object of primitive values. */
  type Fields = map<string, JsValue>

  /** `obj[k]`: the value under `k`, or `undefined`. */
  function Get(f: Fields, k: string): (v: JsValue)
    ensures k !in f ==> v == Undefined
  {
    if k in f then f[k] else Undefined
  }

  /** The role string the admin hook compares against. */
  const ADMIN_ROLE: string := "admin"

  /** `verifyAdmin`: passes iff the token's `rol` is exactly the string
      "admin" (case-sensitive, strict equality). */
  function IsAdmin(user: Claims): (ok: bool)
    ensures ok <==> user.rol == Str(ADMIN_ROLE)
  {
    StrictEquals(user.rol, Str(ADMIN_ROLE))
  }

  /** `verifySelf`: passes iff the token's `cc` is strictly equal to the route
      param `cc`. */
  function IsSelf(user: Claims, params: Fields): (ok: bool)
    ensures ok <==> user.cc == Get(params, "cc") && user.cc != Numeric(NaN)
  {
    StrictEqualsIsEquality(user.cc, Get(params, "cc"));
    StrictEquals(user.cc, Get(params, "cc"))
  }

  /** `verifySelfOrAdmin`, written as the source rejects: when the role is not
      "admin" AND the token's `cc` differs from the param. */
  function IsSelfOrAdmin(user: Claims, params: Fields): (ok: bool)
    ensures ok <==> IsAdmin(user) || IsSelf(user, params)
  {
    !(!StrictEquals(user.rol, Str(ADMIN_ROLE)) && !StrictEquals(user.cc, Get(params, "cc")))
  }

  /** Some param key is missing from the body or holds a value that is not
      strictly equal to the param's. */
  predicate Mismatch(params: Fields, body: Fields) {
    exists k :: k in params && (k !in body || !StrictEquals(body[k], params[k]))
  }

  /** When `verifyParamsInBody` signals a bad request. */
  function ParamsInBodySignals(params: Option<Fields>, body: Option<Fields>): (bad: bool)
    ensures params.None? || params.value == map[] ==> !bad
    ensures params.Some? && params.value != map[] && body.None? ==> bad
    ensures params.Some? && body.Some? ==> (bad <==> Mismatch(params.value, body.value))
  {
    if params.None? || |params.value| == 0 then false
    else if body.None? then true
    else Mismatch(params.value, body.value)
  }

  /** `verifyParamsInBody` as the source runs it: return early on missing or
      empty params, signal when the body is missing, then visit every key
      and signal on each one that is absent from the body or differs. The
      result says whether any bad request was signalled. */
  method VerifyParamsInBody(params: Option<Fields>, body: Option<Fields>) returns (bad: bool)
    ensures bad == ParamsInBodySignals(params, body)
  {
    if params.None? {
      return false;
    }
    var p := params.value;
    if |p.Keys| == 0 {
      assert p == map[];
      return false;
    }
    if body.None? {
      assert p != map[] by { var k :| k in p.Keys; }
      return true;
    }
    var b := body.value;
    bad := false;
    var keys := p.Keys;
    while keys != {}
      invariant keys <= p.Keys
      invariant bad <==> exists k :: k in p.Keys - keys && (k !in b || !StrictEquals(b[k], p[k]))
      decreases keys
    {
      var k :| k in keys;
      if k !in b || !StrictEquals(b[k], p[k]) {
        bad := true;
      }
      keys := keys - {k};
    }
    assert p.Keys - keys == p.Keys;
  }

  /** The hooks a route can list in `onRequest` / `preHandler`. */
  datatype Guard = JwtGuard | AdminGuard | SelfGuard | SelfOrAdminGuard | ParamsInBodyGuard

  /** What a hook sees: the verified token (`None` when the token is missing
      or fails verification), the route params and the body. */
  datatype Request = Request(user: Option<Claims>, params: Option<Fields>, body: Option<Fields>)

  function ParamsOf(req: Request): Fields {
    req.params.GetOr(map[])
  }

  /** The status a hook rejects the request with, or `None` to let it pass.
      The role and identity hooks read fields of `request.user`; without a
      verified user that read throws, which the framework turns into 500. */
  function Check(g: Guard, req: Request): (r: Option<int>)
    ensures g == JwtGuard ==> (r.None? <==> req.user.Some?)
    ensures g == AdminGuard && req.user.Some? ==> (r.None? <==> IsAdmin(req.user.value))
    ensures g == SelfOrAdminGuard && req.user.Some? ==>
              (r.None? <==> IsAdmin(req.user.value) || IsSelf(req.user.value, ParamsOf(req)))
    ensures g == ParamsInBodyGuard ==> (r.None? <==> !ParamsInBodySignals(req.params, req.body))
  {
    match g
    case JwtGuard => if req.user.None? then Some(Http.UNAUTHORIZED) else None
    case ParamsInBodyGuard =>
      if ParamsInBodySignals(req.params, req.body) then Some(Http.BAD_REQUEST) else None
    case _ =>
      if req.user.None? then Some(Http.INTERNAL_ERROR)
      else
        var u := req.user.value;
        var ok := match g
          case AdminGuard => IsAdmin(u)
          case SelfGuard => IsSelf(u, ParamsOf(req))
          case _ => IsSelfOrAdmin(u, ParamsOf(req));
        if ok then None else Some(Http.UNAUTHORIZED)
  }

  /** Run the hooks in order; the first rejection is the route's reply. */
  function RunGuards(gs: seq<Guard>, req: Request): (r: Option<int>)
    ensures r.None? <==> forall i :: 0 <= i < |gs| ==> Check(gs[i], req).None?
    ensures r.Some? ==> exists i :: 0 <= i < |gs| && Check(gs[i], req) == r
                                    && forall j :: 0 <= j < i ==> Check(gs[j], req).None?
    decreases |gs|
  {
    if gs == [] then None
    else match Check(gs[0], req)
      case Some(status) => Some(status)
      case None =>
        var rest := RunGuards(gs[1..], req);
        if rest.Some? then
          assert forall j :: 1 <= j < |gs| ==> gs[j] == gs[1..][j - 1];
          rest
        else rest
  }
}
