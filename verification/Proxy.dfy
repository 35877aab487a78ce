/**
 The portal's proxy: which environment a path belongs to, what path the route tree then sees, when
 an anonymous entry is refused and when the request is rewritten.
 */
module Proxy {
  import opened Wrappers
  import opened Text

  const PROD := "prod"
  const ENVIRONMENT_HEADER := "x-qcms-environment"
  const NO_SUCH_ROUTE := "/qcms-no-such-route"

  // ----- configured environments -----

  predicate IsLower(c: char) { 'a' <= c <= 'z' }

  predicate IsDigit(c: char) { '0' <= c <= '9' }

  /** `/^[a-z][a-z0-9]*$/`. */
  predicate IsName(s: string) {
    |s| > 0 && IsLower(s[0]) && forall i | 0 <= i < |s| :: IsLower(s[i]) || IsDigit(s[i])
  }

  function Names(entries: seq<string>, trim: string -> string, lower: string -> string): (names: seq<string>)
    ensures Configured(names)
  {
    if entries == [] then []
    else
      var name := lower(trim(entries[0]));
      (if name != "" && name != PROD && IsName(name) then [name] else []) + Names(entries[1..], trim, lower)
  }

  /** What the configuration can name: never prod, never empty, never with a slash. */
  ghost predicate Configured(environments: seq<string>) {
    forall i | 0 <= i < |environments| :: IsName(environments[i]) && environments[i] != PROD
  }

  /** `nonProdEnvironments` on the raw variable; `trim` and `lower` are JavaScript's. */
  function NonProdEnvironments(raw: Option<string>, trim: string -> string, lower: string -> string): (names: seq<string>)
    ensures Configured(names)
  {
    if raw.None? || trim(raw.value) == "" then [] else Names(Split(raw.value, ','), trim, lower)
  }

  lemma {:induction false} NamesOf(entries: seq<string>, trim: string -> string, lower: string -> string, name: string)
    ensures name in Names(entries, trim, lower) <==>
            IsName(name) && name != "prod" && exists i :: 0 <= i < |entries| && name == lower(trim(entries[i]))
  {
    if entries != [] {
      NamesOf(entries[1..], trim, lower, name);
      hide IsName, Names;
      if i :| 0 < i < |entries| && name == lower(trim(entries[i])) {
        assert entries[1..][i - 1] == entries[i];
      }
      if i :| 0 <= i < |entries[1..]| && name == lower(trim(entries[1..][i])) {
        assert entries[i + 1] == entries[1..][i];
      }
      NamesOfFirst(entries, trim, lower, name);
    }
  }

  lemma NamesOfFirst(entries: seq<string>, trim: string -> string, lower: string -> string, name: string)
    requires entries != []
    ensures name in Names(entries, trim, lower) <==>
            (name == lower(trim(entries[0])) && IsName(name) && name != "prod") || name in Names(entries[1..], trim, lower)
  {
  }

  /** The syntax of names: a lower-case letter, then such letters and digits. */
  lemma {:induction false} NamesByCharacter(s: string)
    ensures IsName(s) <==>
            s != "" && 97 <= s[0] as int <= 122 && forall c | c in s :: 97 <= c as int <= 122 || 48 <= c as int <= 57
  {
    if i :| 0 <= i < |s| && !(IsLower(s[i]) || IsDigit(s[i])) {
      assert s[i] in s;
    }
  }

  /**
   A name is configured exactly when some comma-separated entry is that name, trimmed and lower-cased, in the names'
   syntax and not prod.
   */
  lemma ConfiguredIff(raw: string, trim: string -> string, lower: string -> string, name: string)
    ensures NonProdEnvironments(None, trim, lower) == []
    ensures var entries := Split(raw, ',');
            name in NonProdEnvironments(Some(raw), trim, lower) <==>
            && trim(raw) != "" && IsName(name) && name != "prod"
            && exists i :: 0 <= i < |entries| && name == lower(trim(entries[i]))
  {
    NamesOf(Split(raw, ','), trim, lower, name);
    hide Split, IsName, Names;
  }

  // ----- resolution -----

  datatype Resolved = Resolved(environment: string, path: string)

  function SecondOrEmpty(segments: seq<string>): string {
    if |segments| > 1 then segments[1] else ""
  }

  function ResolveEnvironment(environments: seq<string>, pathname: string): Resolved {
    var segments := Split(pathname, '/');
    var first := SecondOrEmpty(segments);
    if first !in environments then Resolved(PROD, pathname)
    else Resolved(first, "/" + Join(if |segments| > 2 then segments[2..] else [], '/'))
  }

  function EnvironmentPrefix(environment: string): string {
    if environment == PROD then "" else "/" + environment
  }

  /** The address the application emits for a path of an environment. */
  function EnvironmentPath(environment: string, path: string): string {
    EnvironmentPrefix(environment) + path
  }

  lemma NamesAreSegments(environments: seq<string>, name: string)
    requires Configured(environments) && name in environments
    ensures name != "" && '/' !in name && name != PROD
  {
    var i :| 0 <= i < |environments| && environments[i] == name;
  }

  /**
   A path whose first segment is configured is taken apart without loss: its environment's emitted
   address for the stripped path is the original, or the original with a slash after a bare prefix.
   Any other path is prod's, unchanged.
   */
  lemma {:induction false} ResolutionLosesNothing(environments: seq<string>, pathname: string)
    requires Configured(environments)
    requires pathname != "" && pathname[0] == '/'
    ensures var r := ResolveEnvironment(environments, pathname);
            var segments := Split(pathname, '/');
            && |segments| > 1 && segments[0] == ""
            && (r.environment == PROD <==> segments[1] !in environments)
            && (r.environment == PROD ==> r.path == pathname)
            && (r.environment != PROD ==>
                  && r.environment == segments[1]
                  && EnvironmentPath(r.environment, r.path) ==
                       (if |segments| > 2 then pathname else pathname + "/")
                  && |r.path| < |pathname|)
            && r.path != "" && r.path[0] == '/'
  {
    var segments := Split(pathname, '/');
    JoinOfSplit(pathname, '/');
    assert segments[1..] == Split(pathname[1..], '/');
    var first := segments[1];
    if first in environments {
      NamesAreSegments(environments, first);
      if |segments| > 2 {
        assert segments[1..][1..] == segments[2..];
        assert Join(segments[1..], '/') == first + ['/'] + Join(segments[2..], '/');
        assert pathname == "/" + first + "/" + Join(segments[2..], '/');
      } else {
        assert segments[1..] == [first];
        assert pathname == "/" + first;
      }
    }
  }

  /** Emitted addresses come back: resolution inverts `environmentPath`. */
  lemma {:induction false} EmittedAddressesResolve(environments: seq<string>, environment: string, path: string)
    requires Configured(environments)
    requires path != "" && path[0] == '/'
    requires environment in environments ||
             (environment == PROD && SecondOrEmpty(Split(path, '/')) !in environments)
    ensures ResolveEnvironment(environments, EnvironmentPath(environment, path)) == Resolved(environment, path)
  {
    if environment in environments {
      NamesAreSegments(environments, environment);
      var address := EnvironmentPath(environment, path);
      var inner := Split(path[1..], '/');
      assert address == [] + ['/'] + (environment + ['/'] + path[1..]);
      SplitAfterPart([], environment + ['/'] + path[1..], '/');
      SplitAfterPart(environment, path[1..], '/');
      assert Split(address, '/') == [[], environment] + inner;
      assert ([[], environment] + inner)[2..] == inner;
      JoinOfSplit(path[1..], '/');
      assert "/" + path[1..] == path;
    } else {
      assert EnvironmentPath(environment, path) == path;
    }
  }

  // ----- the decision -----

  predicate IsAnonymousEntry(path: string) {
    path == "/f" || "/f/" <= path
  }

  predicate AnonymousRefused(environments: seq<string>, hostEnvironment: Option<string>, pathname: string) {
    var r := ResolveEnvironment(environments, pathname);
    IsAnonymousEntry(r.path) && (r.environment != PROD || hostEnvironment.Some?)
  }

  /** `rewriteTarget`: the path and query the route tree is asked for, `None` for the request's own. */
  function RewriteTarget(pathname: string, search: string, path: string, refused: bool): Option<string> {
    if refused then Some(NO_SUCH_ROUTE)
    else if path == pathname then None
    else Some(path + search)
  }

  /** An anonymous entry is a path whose first segment is exactly "f". */
  lemma {:induction false} AnonymousEntryBySegment(path: string)
    ensures IsAnonymousEntry(path) <==>
            var segments := Split(path, '/'); |segments| > 1 && segments[0] == "" && segments[1] == "f"
  {
    var segments := Split(path, '/');
    JoinOfSplit(path, '/');
    if path == "/f" {
      SplitAfterPart([], "f", '/');
      SplitOfPart("f", '/');
      assert path == [] + ['/'] + "f";
    } else if "/f/" <= path {
      SplitAfterPart([], "f" + ['/'] + path[3..], '/');
      SplitAfterPart("f", path[3..], '/');
      assert path == [] + ['/'] + ("f" + ['/'] + path[3..]);
    }
    if |segments| > 1 && segments[0] == "" && segments[1] == "f" {
      assert path == "" + ['/'] + Join(segments[1..], '/');
      if |segments| == 2 {
        assert segments[1..] == ["f"];
        assert path == "/f";
      } else {
        assert Join(segments[1..], '/') == "f" + ['/'] + Join(segments[1..][1..], '/');
        assert path[..3] == "/f/";
      }
    }
  }

  /**
   A request is refused exactly when the segment after its environment prefix is "f" and either
   there is such a prefix, whatever the host, or there is none and the host is reserved.
   */
  lemma {:induction false} RefusedIff(environments: seq<string>, hostEnvironment: Option<string>, pathname: string)
    requires Configured(environments)
    requires pathname != "" && pathname[0] == '/'
    ensures var segments := Split(pathname, '/');
            |segments| > 1 &&
            (AnonymousRefused(environments, hostEnvironment, pathname) <==>
             if segments[1] in environments then |segments| > 2 && segments[2] == "f"
             else segments[1] == "f" && hostEnvironment.Some?)
  {
    var segments := Split(pathname, '/');
    var r := ResolveEnvironment(environments, pathname);
    ResolutionLosesNothing(environments, pathname);
    AnonymousEntryBySegment(r.path);
    if segments[1] in environments {
      NamesAreSegments(environments, segments[1]);
      JoinOfSplit(pathname, '/');
      var rest := segments[2..];
      SplitAfterPart([], Join(rest, '/'), '/');
      assert r.path == [] + ['/'] + Join(rest, '/');
      if rest != [] {
        SplitOfJoin(rest, '/');
        assert segments[2] == rest[0];
      }
    }
  }

  /** The request goes through as it came exactly when it is not refused and carries no prefix. */
  lemma UnrewrittenIff(environments: seq<string>, hostEnvironment: Option<string>,
                                          pathname: string, search: string)
    requires Configured(environments)
    requires pathname != "" && pathname[0] == '/'
    ensures var r := ResolveEnvironment(environments, pathname);
            var refused := AnonymousRefused(environments, hostEnvironment, pathname);
            RewriteTarget(pathname, search, r.path, refused).None? <==> !refused && r.environment == PROD
  {
    ResolutionLosesNothing(environments, pathname);
  }

  // ----- the request as forwarded -----

  type Headers = map<string, string>

  /** The headers `proxy` sets itself, but for the environment's. */
  datatype Stamps = Stamps(nonce: string, requestId: string, csp: string)

  const STAMPED: set<string> := {"x-nonce", "x-request-id", ENVIRONMENT_HEADER, "content-security-policy"}

  /** The forwarded headers: four of the proxy's own, whatever was sent under their names, and all others as they came. */
  ghost predicate StampedFrom(headers: Headers, stamps: Stamps, environment: string, forwarded: Headers) {
    && forwarded.Keys == headers.Keys + STAMPED
    && (forall h | h in headers && h !in STAMPED :: forwarded[h] == headers[h])
    && forwarded["x-nonce"] == stamps.nonce
    && forwarded["x-request-id"] == stamps.requestId
    && forwarded[ENVIRONMENT_HEADER] == environment
    && forwarded["content-security-policy"] == stamps.csp
  }

  /** The environment and the rewrite, read off the address: its first segment, the one after it, and what follows. */
  ghost predicate Routed(environments: seq<string>, hostEnvironment: Option<string>, pathname: string, search: string,
    environment: string, rewritten: Option<string>)
  {
    var segments := Split(pathname, '/');
    && |segments| > 1
    && if segments[1] in environments then
         && environment == segments[1]
         && |segments[1]| + 1 <= |pathname|
         && rewritten == Some(
              if |segments| > 2 && segments[2] == "f" then NO_SUCH_ROUTE
              else (if |segments| > 2 then pathname[|segments[1]| + 1..] else "/") + search)
       else
         && environment == PROD
         && rewritten == if segments[1] == "f" && hostEnvironment.Some? then Some(NO_SUCH_ROUTE) else None
  }

  /** `proxy`: the forwarded request headers, set one by one, and the rewrite. */
  method Handle(environments: seq<string>, hostEnvironment: Option<string>, headers: Headers, pathname: string,
                search: string, stamps: Stamps)
    returns (forwarded: Headers, rewritten: Option<string>)
    ensures StampedFrom(headers, stamps, ResolveEnvironment(environments, pathname).environment, forwarded)
    ensures Configured(environments) && pathname != "" && pathname[0] == '/' ==>
            Routed(environments, hostEnvironment, pathname, search, forwarded[ENVIRONMENT_HEADER], rewritten)
  {
    var resolved := ResolveEnvironment(environments, pathname);
    HeadersDiffer();
    forwarded := headers;
    forwarded := forwarded["x-nonce" := stamps.nonce];
    forwarded := forwarded["x-request-id" := stamps.requestId];
    forwarded := forwarded[ENVIRONMENT_HEADER := resolved.environment];
    forwarded := forwarded["content-security-policy" := stamps.csp];
    var anonymousRefused :=
      IsAnonymousEntry(resolved.path) && (resolved.environment != PROD || hostEnvironment.Some?);
    rewritten := RewriteTarget(pathname, search, resolved.path, anonymousRefused);
    hide STAMPED, ENVIRONMENT_HEADER, NO_SUCH_ROUTE, ResolveEnvironment, IsAnonymousEntry, RewriteTarget;
    if Configured(environments) && pathname != "" && pathname[0] == '/' {
      DecisionIsRouted(environments, hostEnvironment, pathname, search);
    }
  }

  lemma HeadersDiffer()
    ensures "x-nonce" != "x-request-id" && "x-nonce" != ENVIRONMENT_HEADER && "x-nonce" != "content-security-policy"
    ensures "x-request-id" != ENVIRONMENT_HEADER && "x-request-id" != "content-security-policy"
    ensures ENVIRONMENT_HEADER != "content-security-policy"
  {
    assert |"x-nonce"| == 7 && |"x-request-id"| == 12;
    assert |ENVIRONMENT_HEADER| == 18 && |"content-security-policy"| == 23;
  }

  lemma DecisionIsRouted(environments: seq<string>, hostEnvironment: Option<string>, pathname: string,
    search: string)
    requires Configured(environments) && pathname != "" && pathname[0] == '/'
    ensures var r := ResolveEnvironment(environments, pathname);
            Routed(environments, hostEnvironment, pathname, search, r.environment,
                   RewriteTarget(pathname, search, r.path, AnonymousRefused(environments, hostEnvironment, pathname)))
  {
    ResolutionLosesNothing(environments, pathname);
    RefusedIff(environments, hostEnvironment, pathname);
    UnrewrittenIff(environments, hostEnvironment, pathname, search);
    hide Split, ResolveEnvironment, AnonymousRefused;
    var r, segments := ResolveEnvironment(environments, pathname), Split(pathname, '/');
    if segments[1] in environments {
      NamesAreSegments(environments, segments[1]);
      StrippedPath(environments, pathname);
    }
  }

  lemma {:induction false} StrippedPath(environments: seq<string>, pathname: string)
    requires Configured(environments) && pathname != "" && pathname[0] == '/'
    ensures var segments := Split(pathname, '/');
            |segments| > 1 &&
            (segments[1] in environments ==>
               && |segments[1]| + 1 <= |pathname|
               && ResolveEnvironment(environments, pathname).path ==
                    if |segments| > 2 then pathname[|segments[1]| + 1..] else "/")
  {
    ResolutionLosesNothing(environments, pathname);
    var segments, r := Split(pathname, '/'), ResolveEnvironment(environments, pathname);
    hide Split, ResolveEnvironment;
    if segments[1] in environments {
      NamesAreSegments(environments, segments[1]);
      var prefix := "/" + segments[1];
      assert (prefix + r.path)[|prefix|..] == r.path;
      if |segments| == 2 {
        assert |r.path| == 1;
      }
    }
  }

  /** A respondent who sends the environment header changes nothing: what is forwarded is the same without it. */
  lemma SentEnvironmentIsIgnored(headers: Headers, sent: string, stamps: Stamps, environment: string,
    with: Headers, without: Headers)
    requires StampedFrom(headers[ENVIRONMENT_HEADER := sent], stamps, environment, with)
    requires StampedFrom(headers, stamps, environment, without)
    ensures with == without
  {
    assert ENVIRONMENT_HEADER in STAMPED;
    forall h | h in with ensures with[h] == without[h] {
      if h in STAMPED {
        assert h == "x-nonce" || h == "x-request-id" || h == ENVIRONMENT_HEADER || h == "content-security-policy";
      }
    }
  }
}
