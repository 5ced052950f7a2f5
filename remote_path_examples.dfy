/** Cases from the parser's unit tests, stated against the model. Inputs are
    written as concatenations at the separators, to keep the proofs small. */
module RemotePathExamples {
  import opened Wrappers
  import opened RemotePath

  /** Inputs the unit tests expect to be rejected for an empty path. */
  lemma PathMissingExamples()
    ensures FromStr("") == Failure(PathMissing)
    ensures FromStr("hh" + ":") == Failure(PathMissing)
    ensures FromStr("u" + "@" + "h" + ":") == Failure(PathMissing)
  {
    EmptyPathRejected("", "hh");
    EmptyPathRejected("u", "h");
  }

  /** Inputs the unit tests expect to be rejected for an empty hostname or
      username; the username is checked first. */
  lemma HostOrUserMissingExamples()
    ensures FromStr("" + ":" + "f") == Failure(HostnameMissing)
    ensures FromStr("u@" + ":" + "f") == Failure(HostnameMissing)
    ensures FromStr("" + ":" + "") == Failure(HostnameMissing)
    ensures FromStr("u@" + ":" + "") == Failure(HostnameMissing)
    ensures FromStr("@" + "" + ":" + "f") == Failure(UsernameMissing)
    ensures FromStr("@" + "h" + ":" + "f") == Failure(UsernameMissing)
    ensures FromStr("@" + "h" + ":" + "") == Failure(UsernameMissing)
  {
    SplitOnceAt("", ':', "f");
    SplitOnceAt("", ':', "");
    SplitOnceAt("u@", ':', "f");
    SplitOnceAt("u@", ':', "");
    SplitOnceAt("u", '@', "");
    MissingUsernameFirst("", "f");
    MissingUsernameFirst("h", "f");
    MissingUsernameFirst("h", "");
  }

  /** The inputs the unit tests expect to be taken whole as a local path. */
  lemma LocalExamples()
    ensures FromStr("f") == Success(Local("f"))
    ensures FromStr("@") == Success(Local("@"))
    ensures FromStr("u@f") == Success(Local("u@f"))
    ensures FromStr("@f") == Success(Local("@f"))
    ensures FromStr("u@") == Success(Local("u@"))
    ensures FromStr("\\\\network\\share\\windows") == Success(Local("\\\\network\\share\\windows"))
    ensures FromStr("/unix/absolute") == Success(Local("/unix/absolute"))
    ensures FromStr("C" + ":" + "\\Path\\On\\Windows") == Success(Local("C" + ":" + "\\Path\\On\\Windows"))
    ensures FromStr("C" + ":" + "") == Success(Local("C" + ":" + ""))
    ensures FromStr("C" + ":" + "\\") == Success(Local("C" + ":" + "\\"))
    ensures FromStr("C" + ":" + "\\folder") == Success(Local("C" + ":" + "\\folder"))
  {
    assert ':' !in "f";
    assert ':' !in "u@f";
    assert ':' !in "@f";
    assert ':' !in "u@";
    assert ':' !in "\\\\network\\share\\windows";
    assert ':' !in "/unix/absolute";
    SplitOnceAt("C", ':', "\\Path\\On\\Windows");
    SplitOnceAt("C", ':', "");
    SplitOnceAt("C", ':', "\\");
    SplitOnceAt("C", ':', "\\folder");
  }

  /** Remote inputs with a username; the path keeps every later colon. */
  lemma RemoteUserExamples()
    ensures FromStr("u" + "@" + "h" + ":" + "f") == Success(RemotePathDesc("u", "h", "f"))
    ensures FromStr("u" + "@" + "s" + ":" + "C:\\folder") == Success(RemotePathDesc("u", "s", "C:\\folder"))
  {
    assert FromStr("u" + "@" + "h" + ":" + "f") == Success(RemotePathDesc("u", "h", "f")) by {
      LaterSeparatorsStayInPath("u", "h", "f");
    }
    assert FromStr("u" + "@" + "s" + ":" + "C:\\folder") == Success(RemotePathDesc("u", "s", "C:\\folder")) by {
      LaterSeparatorsStayInPath("u", "s", "C:\\folder");
    }
  }

  /** A Unix absolute path on a remote host, with a username. */
  lemma UnixRemoteExample()
    ensures FromStr("username" + "@" + "server" + ":" + "/unix/absolute")
            == Success(RemotePathDesc("username", "server", "/unix/absolute"))
  {
    LaterSeparatorsStayInPath("username", "server", "/unix/absolute");
  }

  /** The remote inputs of the unit tests with no username, including the
      one whose path keeps every later colon and `@`, and the hostnames that
      are not drive letters. */
  lemma RemoteExamples()
    ensures FromStr("h" + ":" + "f") == Success(RemotePathDesc("", "h", "f"))
    ensures FromStr("u" + ":" + "u@u:u@h:f:f:f@f") == Success(RemotePathDesc("", "u", "u@u:u@h:f:f:f@f"))
    ensures FromStr("C" + ":" + "folder") == Success(RemotePathDesc("", "C", "folder"))
    ensures FromStr("CC" + ":" + "folder") == Success(RemotePathDesc("", "CC", "folder"))
    ensures FromStr("CC" + ":" + "\\folder") == Success(RemotePathDesc("", "CC", "\\folder"))
    ensures FromStr("s" + ":" + "C:\\folder") == Success(RemotePathDesc("", "s", "C:\\folder"))
  {
    FormatThenParse(RemotePathDesc("", "h", "f"));
    FormatThenParse(RemotePathDesc("", "u", "u@u:u@h:f:f:f@f"));
    FormatThenParse(RemotePathDesc("", "C", "folder"));
    FormatThenParse(RemotePathDesc("", "CC", "folder"));
    FormatThenParse(RemotePathDesc("", "CC", "\\folder"));
    FormatThenParse(RemotePathDesc("", "s", "C:\\folder"));
  }
}
