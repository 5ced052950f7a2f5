/** Parsing of the `src` and `dest` command-line arguments, whose format is
    `[[username@]hostname:]path`, into a RemotePathDesc. */
module RemotePath {
  import opened Wrappers

  /** A local or remote path. An empty hostname means a local path. */
  datatype RemotePathDesc = RemotePathDesc(username: string, hostname: string, path: string)

  const PathMissing := "Path must be specified"
  const UsernameMissing := "Missing username"
  const HostnameMissing := "Missing hostname"

  /** A local path: no username and no hostname. */
  function Local(path: string): RemotePathDesc {
    RemotePathDesc("", "", path)
  }

  /** The index of the first occurrence of `c` in `s`. */
  function IndexOf(s: string, c: char): (r: Option<nat>)
    ensures r.None? <==> c !in s
    ensures r.Some? ==> r.value < |s| && s[r.value] == c && c !in s[..r.value]
    decreases |s|
  {
    if s == [] then None
    else if s[0] == c then Some(0)
    else
      match IndexOf(s[1..], c)
      case None => None
      case Some(k) => assert s[1..][..k] == s[1..k + 1]; Some(k + 1)
  }

  /** `str::split_once`: the text before and after the first `c`. */
  function SplitOnce(s: string, c: char): (r: Option<(string, string)>)
    ensures r.None? <==> c !in s
    ensures r.Some? ==> s == r.value.0 + [c] + r.value.1 && c !in r.value.0
  {
    match IndexOf(s, c)
    case None => None
    case Some(k) =>
      assert s == s[..k] + [c] + s[k + 1..];
      Some((s[..k], s[k + 1..]))
  }

  /** The drive-letter exception: one byte before the first colon (one
      ASCII character, since the length is counted in UTF-8 bytes) and
      nothing, or a backslash, after it (`C:`, `C:\folder`). */
  predicate IsDriveLetter(before: string, after: string) {
    |before| == 1 && before[0] as int < 0x80 && (after == [] || after[0] == '\\')
  }

  /** `RemotePathDesc::from_str`. */
  function FromStr(s: string): (r: Result<RemotePathDesc, string>)
    ensures r.Success? ==> r.value.path != []
    ensures ':' !in s ==> r == if s == [] then Failure(PathMissing) else Success(Local(s))
    ensures r.Success? && r.value.hostname == [] ==> r.value == Local(s)
    ensures r.Failure? ==> r.error in {PathMissing, UsernameMissing, HostnameMissing}
  {
    match SplitOnce(s, ':')
    case None =>
      if s == [] then Failure(PathMissing) else Success(Local(s))
    case Some((a, b)) =>
      if IsDriveLetter(a, b) then
        Success(Local(s))
      else
        var host :-
          match SplitOnce(a, '@')
          case None => Success(("", a))
          case Some((user, host)) =>
            if user == [] then Failure(UsernameMissing) else Success((user, host));
        if host.1 == [] then Failure(HostnameMissing)
        else if b == [] then Failure(PathMissing)
        else Success(RemotePathDesc(host.0, host.1, b))
  }

  /** The documented argument format `[[username@]hostname:]path`, written
      out: the inverse of FromStr. */
  function Format(d: RemotePathDesc): string {
    if d.hostname == [] then d.path
    else if d.username == [] then d.hostname + ":" + d.path
    else d.username + "@" + d.hostname + ":" + d.path
  }

  /** The descriptions that the argument syntax can express: a non-empty
      path; a local path that does not look like `host:path`; a remote
      host whose name has no colon (and no `@` when there is no username,
      and is not a lone drive letter followed by a backslash); a username
      with neither a colon nor an `@`. */
  predicate Expressible(d: RemotePathDesc) {
    && d.path != []
    && (d.hostname == [] ==>
          d.username == [] && (':' !in d.path ||
                               var p := SplitOnce(d.path, ':').value; IsDriveLetter(p.0, p.1)))
    && (d.hostname != [] ==>
          && ':' !in d.hostname
          && ':' !in d.username
          && '@' !in d.username
          && (d.username == [] ==> '@' !in d.hostname && !IsDriveLetter(d.hostname, d.path)))
  }

  /** Every successful parse reconstructs its input, and what it produced is
      expressible. */
  lemma ParseThenFormat(s: string)
    requires FromStr(s).Success?
    ensures Format(FromStr(s).value) == s
    ensures Expressible(FromStr(s).value)
  {
    var d := FromStr(s).value;
    match SplitOnce(s, ':')
    case None =>
    case Some((a, b)) =>
      if !IsDriveLetter(a, b) {
        match SplitOnce(a, '@')
        case None =>
          assert d == RemotePathDesc("", a, b);
        case Some((user, host)) =>
          assert d == RemotePathDesc(user, host, b);
          assert s == user + "@" + host + ":" + b;
      }
  }

  /** Every expressible description survives formatting and parsing. */
  lemma FormatThenParse(d: RemotePathDesc)
    requires Expressible(d)
    ensures FromStr(Format(d)) == Success(d)
  {
    var s := Format(d);
    if d.hostname == [] {
    } else {
      var uh := if d.username == [] then d.hostname else d.username + "@" + d.hostname;
      assert s == uh + [':'] + d.path;
      assert ':' !in uh;
      SplitOnceAt(uh, ':', d.path);
      if d.username != [] {
        assert uh == d.username + ['@'] + d.hostname;
        SplitOnceAt(d.username, '@', d.hostname);
      }
    }
  }

  /** Splitting `a + [c] + b` at its first `c` gives `a` and `b` back when `a`
      has no `c`. */
  lemma SplitOnceAt(a: string, c: char, b: string)
    requires c !in a
    ensures SplitOnce(a + [c] + b, c) == Some((a, b))
  {
    var s := a + [c] + b;
    IndexOfAt(a, c, b);
    assert s[..|a|] == a && s[|a| + 1..] == b;
  }

  lemma {:induction false} IndexOfAt(a: string, c: char, b: string)
    requires c !in a
    ensures IndexOf(a + [c] + b, c) == Some(|a|)
  {
    if a != [] {
      assert (a + [c] + b)[1..] == a[1..] + [c] + b;
      IndexOfAt(a[1..], c, b);
    }
  }

  /** Splitting happens only at the first colon and, before it, the first
      `@`: later colons and `@`s stay in the path. */
  lemma LaterSeparatorsStayInPath(user: string, host: string, path: string)
    requires ':' !in user && '@' !in user && ':' !in host
    requires user != [] && host != [] && path != []
    ensures FromStr(user + "@" + host + ":" + path) == Success(RemotePathDesc(user, host, path))
  {
    FormatThenParse(RemotePathDesc(user, host, path));
  }

  /** With a colon present but no drive letter, an empty username yields
      "Missing username" before the hostname, or the path, is looked at. */
  lemma MissingUsernameFirst(rest: string, path: string)
    requires ':' !in rest
    requires !IsDriveLetter("@" + rest, path)
    ensures FromStr("@" + rest + ":" + path) == Failure(UsernameMissing)
  {
    var a := "@" + rest;
    assert ':' !in a;
    SplitOnceAt(a, ':', path);
    assert a == [] + ['@'] + rest;
    SplitOnceAt([], '@', rest);
  }

  /** A well-formed host part followed by nothing is rejected with "Path
      must be specified" (`hh:`, `u@h:`); a lone letter before the colon is
      a drive letter instead (`C:`). */
  lemma EmptyPathRejected(user: string, host: string)
    requires host != [] && ':' !in host && ':' !in user && '@' !in user
    requires user == [] ==> '@' !in host && !IsDriveLetter(host, "")
    ensures FromStr(Format(RemotePathDesc(user, host, ""))) == Failure(PathMissing)
  {
    var uh := if user == [] then host else user + "@" + host;
    assert Format(RemotePathDesc(user, host, "")) == uh + [':'] + [];
    assert ':' !in uh;
    SplitOnceAt(uh, ':', []);
    if user != [] {
      assert uh == user + ['@'] + host;
      SplitOnceAt(user, '@', host);
    }
  }
}
