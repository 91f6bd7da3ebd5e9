/** The HTTP middleware (internal/infrastructure/middleware/middleware.go): the bearer-token gate
    in front of every non-public route, and the request deadline. A middleware either passes the
    request on to the next handler, which then runs exactly once with the request it is given,
    or answers itself and the next handler never runs. */
module Middleware {
  import opened Base
  import opened Utils

  /** The routes reachable without a token. */
  const LoginPath: string := "/auth/login"
  const HealthPath: string := "/health"

  /** The only authorization scheme accepted, and the separator `strings.Split` is given. */
  const Scheme: string := "Bearer"
  const Space: char := ' '

  /** The deadline `TimeoutMiddleware` sets, in milliseconds. */
  const TimeoutMs: nat := 30000

  /** The error code and the (Turkish) messages and details of the three refusals. */
  const CodeUnauthorized: string := "UNAUTHORIZED"
  const MissingMessage: string := "Giriş yapmanız gerekiyor"
  const MissingDetails: string := "Token eksik"
  const FormatMessage: string := "Geçersiz token formatı"
  const FormatDetails: string := "Bearer token bekleniyor"
  const ExpiredMessage: string := "Oturum süresi dolmuş"
  const ExpiredDetails: string := "Token geçersiz veya süresi dolmuş"

  /** A request as the middleware sees it: its path, its `Authorization` header (empty when
      absent), its context values and its context deadline, if any. */
  datatype Request = Request(path: string, authorization: string, ctx: Context, deadline: Option<nat>)

  /** The claims a valid token carries. */
  datatype Claims = Claims(userId: string, username: string, role: string)

  /** `jwt.ParseWithClaims` with the server's key, as an oracle: the claims of a token that
      parses and is valid, `None` for a parse error or an invalid token. */
  type TokenParser = string -> Option<Claims>

  /** What a middleware does with a request: the next handler is called once, with `request`,
      or the middleware writes `response` with `status` itself. */
  datatype Handled = Passed(request: Request) | Refused(status: int, response: ApiResponse)

  // ---- strings.Split and its inverse ----

  /** The index of the first `sep` in `s`. */
  function FirstIndex(s: string, sep: char): (i: nat)
    requires sep in s
    ensures i < |s| && s[i] == sep && sep !in s[..i]
  {
    if s[0] == sep then 0
    else
      assert s == [s[0]] + s[1..];
      1 + FirstIndex(s[1..], sep)
  }

  /** `strings.Split(s, sep)` for a one-character separator: the pieces between separators, one
      more than there are separators. */
  function Split(s: string, sep: char): (parts: seq<string>)
    ensures |parts| >= 1
    decreases |s|
  {
    if sep !in s then [s]
    else
      var i := FirstIndex(s, sep);
      [s[..i]] + Split(s[i + 1..], sep)
  }

  /** `strings.Join(parts, sep)`. */
  function Join(parts: seq<string>, sep: char): string
    requires |parts| >= 1
  {
    if |parts| == 1 then parts[0] else parts[0] + [sep] + Join(parts[1..], sep)
  }

  /** No piece contains the separator. */
  lemma {:induction false} SplitPieces(s: string, sep: char)
    ensures forall k :: 0 <= k < |Split(s, sep)| ==> sep !in Split(s, sep)[k]
    decreases |s|
  {
    if sep in s {
      var i := FirstIndex(s, sep);
      var rest := Split(s[i + 1..], sep);
      SplitPieces(s[i + 1..], sep);
      assert Split(s, sep) == [s[..i]] + rest;
    }
  }

  /** Joining the pieces gives the string back. */
  lemma {:induction false} SplitJoin(s: string, sep: char)
    ensures Join(Split(s, sep), sep) == s
    decreases |s|
  {
    if sep in s {
      var i := FirstIndex(s, sep);
      var rest := Split(s[i + 1..], sep);
      SplitJoin(s[i + 1..], sep);
      var parts := Split(s, sep);
      assert parts == [s[..i]] + rest;
      assert Join(parts, sep) == s[..i] + [sep] + Join(rest, sep) by {
        assert |parts| > 1 && parts[0] == s[..i] && parts[1..] == rest;
      }
      CutAt(s, i);
    }
  }

  /** A string is the part before index `i`, its character at `i`, and the part after. */
  lemma CutAt(s: string, i: nat)
    requires i < |s|
    ensures s[..i] + [s[i]] + s[i + 1..] == s
  {
  }

  /** Splitting undoes joining pieces that do not contain the separator. */
  lemma {:induction false} JoinSplit(parts: seq<string>, sep: char)
    requires |parts| >= 1
    requires forall k :: 0 <= k < |parts| ==> sep !in parts[k]
    ensures Split(Join(parts, sep), sep) == parts
  {
    if |parts| > 1 {
      var s := Join(parts, sep);
      JoinSplit(parts[1..], sep);
      assert s == parts[0] + [sep] + Join(parts[1..], sep);
      assert s[|parts[0]|] == sep;
      assert s[..|parts[0]|] == parts[0];
      assert FirstIndex(s, sep) == |parts[0]|;
      assert s[|parts[0]| + 1..] == Join(parts[1..], sep);
    }
  }

  /** The first separator is at `i` when `s[i]` is one and none comes before it. */
  lemma {:induction false} FirstIndexAt(s: string, sep: char, i: nat)
    requires i < |s| && s[i] == sep && sep !in s[..i]
    ensures sep in s && FirstIndex(s, sep) == i
  {
    assert s[i] in s;
    if i > 0 {
      assert s[0] in s[..i];
      assert s[1..][..i - 1] == s[..i][1..];
      FirstIndexAt(s[1..], sep, i - 1);
    }
  }

  /** A string splits into one piece exactly when it holds no separator. */
  lemma SplitOne(s: string, sep: char)
    ensures |Split(s, sep)| == 1 <==> sep !in s
  {
    if sep in s {
      var i := FirstIndex(s, sep);
      assert |Split(s, sep)| == 1 + |Split(s[i + 1..], sep)|;
    }
  }

  /** A header splits into exactly two pieces, the first "Bearer", exactly when it is "Bearer",
      one space and a token without spaces; the token is the second piece. */
  lemma BearerShape(h: string)
    ensures (|Split(h, Space)| == 2 && Split(h, Space)[0] == Scheme)
            <==> (|h| >= 7 && h[..7] == "Bearer " && Space !in h[7..])
    ensures |Split(h, Space)| == 2 && Split(h, Space)[0] == Scheme ==> Split(h, Space)[1] == h[7..]
  {
    if |h| >= 7 && h[..7] == "Bearer " {
      assert h[..6] == h[..7][..6] == Scheme;
      assert h[6] == h[..7][6] == Space;
      FirstIndexAt(h, Space, 6);
      assert Split(h, Space) == [Scheme] + Split(h[7..], Space);
      SplitOne(h[7..], Space);
    }
    if |Split(h, Space)| == 2 && Split(h, Space)[0] == Scheme {
      SplitOne(h, Space);
      var i := FirstIndex(h, Space);
      assert Split(h, Space) == [h[..i]] + Split(h[i + 1..], Space);
      assert |h[..i]| == |Scheme| == 6;
      assert h[..7] == h[..6] + [h[6]];
      SplitOne(h[7..], Space);
    }
  }

  // ---- AuthMiddleware ----

  predicate IsPublic(path: string) {
    path == LoginPath || path == HealthPath
  }

  /** `AuthMiddleware` for one request; `now` is the formatted time the refusal is stamped
      with. */
  function Auth(r: Request, parse: TokenParser, now: string): Handled {
    if IsPublic(r.path) then Passed(r)
    else if r.authorization == "" then
      Refused(StatusUnauthorized, ErrorResponse(CodeUnauthorized, MissingMessage, MissingDetails, now))
    else
      var parts := Split(r.authorization, Space);
      if |parts| != 2 || parts[0] != Scheme then
        Refused(StatusUnauthorized, ErrorResponse(CodeUnauthorized, FormatMessage, FormatDetails, now))
      else match parse(parts[1])
        case None => Refused(StatusUnauthorized, ErrorResponse(CodeUnauthorized, ExpiredMessage, ExpiredDetails, now))
        case Some(c) =>
          Passed(r.(ctx := r.ctx[RoleKey := Str(c.role)][UsernameKey := Str(c.username)][UserIdKey := Str(c.userId)]))
  }

  /** The gate in full: a request reaches the next handler exactly when its path is public, or
      its header is "Bearer", one space and a token without spaces that the parser accepts. A
      public request is passed on untouched without looking at the header; a request that is
      refused gets 401 with the "UNAUTHORIZED" error envelope, and its details say which check
      failed. */
  lemma AuthDecision(r: Request, parse: TokenParser, now: string)
    ensures var h := r.authorization;
            Auth(r, parse, now).Passed? <==>
              IsPublic(r.path) || (|h| >= 7 && h[..7] == "Bearer " && Space !in h[7..] && parse(h[7..]).Some?)
    ensures IsPublic(r.path) ==> Auth(r, parse, now) == Passed(r)
    ensures Auth(r, parse, now).Refused? ==>
              && Auth(r, parse, now).status == StatusUnauthorized
              && Auth(r, parse, now).response.error.Some?
              && Auth(r, parse, now).response.error.value.code == CodeUnauthorized
              && Auth(r, parse, now).response.error.value.details ==
                   if r.authorization == "" then MissingDetails
                   else if !(|Split(r.authorization, Space)| == 2 && Split(r.authorization, Space)[0] == Scheme) then FormatDetails
                   else ExpiredDetails
  {
    BearerShape(r.authorization);
  }

  /** An accepted request reaches the next handler with the claims' role, user name and user id
      in its context, and otherwise unchanged; `GetUsernameFromContext` then reads back the
      claims' user name. */
  lemma AuthContext(r: Request, parse: TokenParser, now: string)
    requires !IsPublic(r.path)
    ensures var h := r.authorization;
            Auth(r, parse, now).Passed? ==>
              && |h| >= 7 && parse(h[7..]).Some?
              && var c := parse(h[7..]).value;
              && var next := Auth(r, parse, now).request;
              && next == r.(ctx := next.ctx)
              && next.ctx == r.ctx[RoleKey := Str(c.role)][UsernameKey := Str(c.username)][UserIdKey := Str(c.userId)]
              && UsernameFromContext(Some(next.ctx)) == c.username
  {
    BearerShape(r.authorization);
  }

  // ---- TimeoutMiddleware ----

  /** `TimeoutMiddleware` at time `now` (milliseconds): the request is always passed on, with a
      context whose deadline is 30 seconds from now, or the parent's deadline when that is
      earlier. */
  function Timeout(r: Request, now: nat): (h: Handled)
    ensures h.Passed? && h.request == r.(deadline := h.request.deadline)
    ensures h.request.deadline.Some? && h.request.deadline.value <= now + TimeoutMs
    ensures r.deadline.Some? ==> h.request.deadline.value <= r.deadline.value
    ensures r.deadline.None? || r.deadline.value >= now + TimeoutMs ==> h.request.deadline == Some(now + TimeoutMs)
    ensures r.deadline.Some? && r.deadline.value < now + TimeoutMs ==> h.request.deadline == r.deadline
  {
    var d := if r.deadline.Some? && r.deadline.value < now + TimeoutMs then r.deadline.value else now + TimeoutMs;
    Passed(r.(deadline := Some(d)))
  }
}
