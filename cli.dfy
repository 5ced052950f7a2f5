/** The command-line arguments that shape a sync, and `resolve_spec`, which
    layers them over a spec file (or builds a one-sync spec from `src` and
    `dest`). */
module Cli {
  import opened Wrappers
  import opened YamlTree
  import opened RemotePath
  import opened SpecFile

  /** The part of `BossCliArgs` that `resolve_spec` reads. */
  datatype BossCliArgs = BossCliArgs(
    src: Option<RemotePathDesc>,
    dest: Option<RemotePathDesc>,
    spec: Option<string>,
    filter: seq<string>,
    deploy: Option<DeployBehaviour>,
    destFileNewer: Option<DestFileUpdateBehaviour>,
    destFileOlder: Option<DestFileUpdateBehaviour>,
    filesSameTime: Option<DestFileUpdateBehaviour>,
    destEntryNeedsDeleting: Option<DestEntryNeedsDeletingBehaviour>,
    destRootNeedsDeleting: Option<DestRootNeedsDeletingBehaviour>,
    allDestructiveBehaviour: Option<AllDestructiveBehaviour>)

  /** What `--all-destructive-behaviour` means for each kind of behaviour:
      `proceed` becomes overwrite or delete, the others keep their name. */
  function AllToFileUpdate(b: AllDestructiveBehaviour): (r: DestFileUpdateBehaviour)
    ensures r.Overwrite? <==> b.Proceed?
    ensures r.Skip? <==> b.Skip?
  {
    match b
    case Prompt => DestFileUpdateBehaviour.Prompt
    case Error => DestFileUpdateBehaviour.Error
    case Skip => DestFileUpdateBehaviour.Skip
    case Proceed => DestFileUpdateBehaviour.Overwrite
  }

  function AllToEntry(b: AllDestructiveBehaviour): (r: DestEntryNeedsDeletingBehaviour)
    ensures r.Delete? <==> b.Proceed?
    ensures r.Skip? <==> b.Skip?
  {
    match b
    case Prompt => DestEntryNeedsDeletingBehaviour.Prompt
    case Error => DestEntryNeedsDeletingBehaviour.Error
    case Skip => DestEntryNeedsDeletingBehaviour.Skip
    case Proceed => DestEntryNeedsDeletingBehaviour.Delete
  }

  function AllToRoot(b: AllDestructiveBehaviour): (r: DestRootNeedsDeletingBehaviour)
    ensures r.Delete? <==> b.Proceed?
    ensures r.Skip? <==> b.Skip?
  {
    match b
    case Prompt => DestRootNeedsDeletingBehaviour.Prompt
    case Error => DestRootNeedsDeletingBehaviour.Error
    case Skip => DestRootNeedsDeletingBehaviour.Skip
    case Proceed => DestRootNeedsDeletingBehaviour.Delete
  }

  // The precedence of the three sources of a behaviour, stated directly:
  // an individual flag wins; otherwise --all-destructive-behaviour applies
  // unless the value was Skip; otherwise the spec file's (or default) value.

  function PrecedenceFileUpdate(original: DestFileUpdateBehaviour, all: Option<AllDestructiveBehaviour>,
                                individual: Option<DestFileUpdateBehaviour>): (r: DestFileUpdateBehaviour)
    ensures individual.Some? ==> r == individual.value
    ensures individual.None? && all.Some? && !original.Skip? ==> r == AllToFileUpdate(all.value)
    ensures individual.None? && (all.None? || original.Skip?) ==> r == original
    ensures r.Overwrite? ==> original.Overwrite? || individual == Some(DestFileUpdateBehaviour.Overwrite) || all == Some(AllDestructiveBehaviour.Proceed)
  {
    if individual.Some? then individual.value
    else if all.Some? && !original.Skip? then AllToFileUpdate(all.value)
    else original
  }

  function PrecedenceEntry(original: DestEntryNeedsDeletingBehaviour, all: Option<AllDestructiveBehaviour>,
                           individual: Option<DestEntryNeedsDeletingBehaviour>): (r: DestEntryNeedsDeletingBehaviour)
    ensures individual.Some? ==> r == individual.value
    ensures individual.None? && all.Some? && !original.Skip? ==> r == AllToEntry(all.value)
    ensures individual.None? && (all.None? || original.Skip?) ==> r == original
    ensures r.Delete? ==> original.Delete? || individual == Some(DestEntryNeedsDeletingBehaviour.Delete) || all == Some(AllDestructiveBehaviour.Proceed)
  {
    if individual.Some? then individual.value
    else if all.Some? && !original.Skip? then AllToEntry(all.value)
    else original
  }

  function PrecedenceRoot(original: DestRootNeedsDeletingBehaviour, all: Option<AllDestructiveBehaviour>,
                          individual: Option<DestRootNeedsDeletingBehaviour>): (r: DestRootNeedsDeletingBehaviour)
    ensures individual.Some? ==> r == individual.value
    ensures individual.None? && all.Some? && !original.Skip? ==> r == AllToRoot(all.value)
    ensures individual.None? && (all.None? || original.Skip?) ==> r == original
    ensures r.Delete? ==> original.Delete? || individual == Some(DestRootNeedsDeletingBehaviour.Delete) || all == Some(AllDestructiveBehaviour.Proceed)
  {
    if individual.Some? then individual.value
    else if all.Some? && !original.Skip? then AllToRoot(all.value)
    else original
  }

  /** A sync after the command line has been applied to it. */
  function ResolvedSync(args: BossCliArgs, s: SyncSpec): (r: SyncSpec)
    ensures r.src == s.src && r.dest == s.dest
    ensures r.filters == if args.filter == [] then s.filters else args.filter
    ensures args.destFileNewer.Some? ==> r.destFileNewerBehaviour == args.destFileNewer.value
    ensures args.destFileOlder.Some? ==> r.destFileOlderBehaviour == args.destFileOlder.value
    ensures args.filesSameTime.Some? ==> r.filesSameTimeBehaviour == args.filesSameTime.value
    ensures args.destEntryNeedsDeleting.Some? ==> r.destEntryNeedsDeletingBehaviour == args.destEntryNeedsDeleting.value
    ensures args.destRootNeedsDeleting.Some? ==> r.destRootNeedsDeletingBehaviour == args.destRootNeedsDeleting.value
    ensures NoIndividualFlags(args) && args.allDestructiveBehaviour.None? ==>
              r == s.(filters := r.filters)
  {
    SyncSpec(
      s.src,
      s.dest,
      if args.filter != [] then args.filter else s.filters,
      PrecedenceFileUpdate(s.destFileNewerBehaviour, args.allDestructiveBehaviour, args.destFileNewer),
      PrecedenceFileUpdate(s.destFileOlderBehaviour, args.allDestructiveBehaviour, args.destFileOlder),
      PrecedenceFileUpdate(s.filesSameTimeBehaviour, args.allDestructiveBehaviour, args.filesSameTime),
      PrecedenceEntry(s.destEntryNeedsDeletingBehaviour, args.allDestructiveBehaviour, args.destEntryNeedsDeleting),
      PrecedenceRoot(s.destRootNeedsDeletingBehaviour, args.allDestructiveBehaviour, args.destRootNeedsDeleting))
  }

  /** A spec after the command line has been applied to it. */
  function Resolved(args: BossCliArgs, base: Spec): (r: Spec)
    ensures r == base.(deployBehaviour := r.deployBehaviour, syncs := r.syncs)
    ensures r.deployBehaviour == if args.deploy.Some? then args.deploy.value else base.deployBehaviour
    ensures |r.syncs| == |base.syncs|
    ensures forall i :: 0 <= i < |base.syncs| ==> r.syncs[i] == ResolvedSync(args, base.syncs[i])
  {
    base.(deployBehaviour := if args.deploy.Some? then args.deploy.value else base.deployBehaviour,
          syncs := seq(|base.syncs|, i requires 0 <= i < |base.syncs| => ResolvedSync(args, base.syncs[i])))
  }

  /** The spec made from `src` and `dest` alone, when there is no `--spec`:
      their hosts and users, and one default sync between their paths. */
  function CommandLineSpec(src: RemotePathDesc, dest: RemotePathDesc): (r: Spec)
    ensures r.srcHostname == src.hostname && r.srcUsername == src.username
    ensures r.destHostname == dest.hostname && r.destUsername == dest.username
    ensures r.deployBehaviour == DefaultSpec.deployBehaviour
    ensures r.syncs == [DefaultSyncSpec.(src := src.path, dest := dest.path)]
  {
    DefaultSpec.(srcHostname := src.hostname, srcUsername := src.username,
                 destHostname := dest.hostname, destUsername := dest.username,
                 syncs := [DefaultSyncSpec.(src := src.path, dest := dest.path)])
  }

  /** The spec the command line starts from: the parsed spec file (whose
      loaded documents are `loaded`), or CommandLineSpec. */
  function BaseSpec(args: BossCliArgs, loaded: Result<seq<Yaml>, string>): (r: Result<Spec, string>)
    requires args.spec.None? ==> args.src.Some? && args.dest.Some?
    ensures args.spec.Some? && SpecFileOf(loaded).Failure? ==>
      r == Failure("Failed to parse spec file at '" + args.spec.value + "': " + SpecFileOf(loaded).error)
    ensures args.spec.Some? && SpecFileOf(loaded).Success? ==> r == SpecFileOf(loaded)
    ensures args.spec.None? ==> r == Success(CommandLineSpec(args.src.value, args.dest.value))
  {
    match args.spec
    case Some(p) =>
      (match SpecFileOf(loaded)
       case Success(s) => Success(s)
       case Failure(e) => Failure("Failed to parse spec file at '" + p + "': " + e))
    case None => Success(CommandLineSpec(args.src.value, args.dest.value))
  }

  /** The body of the loop of `resolve_spec`: the command-line overrides
      applied to one sync, one `if` after another (filters, then the
      all-destructive stage, then the individual flags). */
  method ResolveSync(args: BossCliArgs, s: SyncSpec) returns (sync: SyncSpec)
    ensures sync == ResolvedSync(args, s)
  {
    sync := s;
    if args.filter != [] {
      sync := sync.(filters := args.filter);
    }
    if args.allDestructiveBehaviour.Some? {
      sync := ApplyAllDestructive(args.allDestructiveBehaviour.value, sync);
    }
    sync := ApplyIndividualFlags(args, sync);
  }

  /** The `--all-destructive-behaviour` stage: every behaviour that is not
      Skip takes the all-destructive value. */
  method ApplyAllDestructive(b: AllDestructiveBehaviour, s: SyncSpec) returns (sync: SyncSpec)
    ensures sync == s.(
      destFileNewerBehaviour := PrecedenceFileUpdate(s.destFileNewerBehaviour, Some(b), None),
      destFileOlderBehaviour := PrecedenceFileUpdate(s.destFileOlderBehaviour, Some(b), None),
      filesSameTimeBehaviour := PrecedenceFileUpdate(s.filesSameTimeBehaviour, Some(b), None),
      destEntryNeedsDeletingBehaviour := PrecedenceEntry(s.destEntryNeedsDeletingBehaviour, Some(b), None),
      destRootNeedsDeletingBehaviour := PrecedenceRoot(s.destRootNeedsDeletingBehaviour, Some(b), None))
  {
    sync := s;
    if !sync.destFileNewerBehaviour.Skip? {
      sync := sync.(destFileNewerBehaviour := AllToFileUpdate(b));
    }
    if !sync.destFileOlderBehaviour.Skip? {
      sync := sync.(destFileOlderBehaviour := AllToFileUpdate(b));
    }
    if !sync.filesSameTimeBehaviour.Skip? {
      sync := sync.(filesSameTimeBehaviour := AllToFileUpdate(b));
    }
    if !sync.destEntryNeedsDeletingBehaviour.Skip? {
      sync := sync.(destEntryNeedsDeletingBehaviour := AllToEntry(b));
    }
    if !sync.destRootNeedsDeletingBehaviour.Skip? {
      sync := sync.(destRootNeedsDeletingBehaviour := AllToRoot(b));
    }
  }

  /** The last stage: each individually given behaviour flag sets its field. */
  method ApplyIndividualFlags(args: BossCliArgs, s: SyncSpec) returns (sync: SyncSpec)
    ensures sync == s.(
      destFileNewerBehaviour := PrecedenceFileUpdate(s.destFileNewerBehaviour, None, args.destFileNewer),
      destFileOlderBehaviour := PrecedenceFileUpdate(s.destFileOlderBehaviour, None, args.destFileOlder),
      filesSameTimeBehaviour := PrecedenceFileUpdate(s.filesSameTimeBehaviour, None, args.filesSameTime),
      destEntryNeedsDeletingBehaviour := PrecedenceEntry(s.destEntryNeedsDeletingBehaviour, None, args.destEntryNeedsDeleting),
      destRootNeedsDeletingBehaviour := PrecedenceRoot(s.destRootNeedsDeletingBehaviour, None, args.destRootNeedsDeleting))
  {
    sync := s;
    if args.destFileNewer.Some? {
      sync := sync.(destFileNewerBehaviour := args.destFileNewer.value);
    }
    if args.destFileOlder.Some? {
      sync := sync.(destFileOlderBehaviour := args.destFileOlder.value);
    }
    if args.filesSameTime.Some? {
      sync := sync.(filesSameTimeBehaviour := args.filesSameTime.value);
    }
    if args.destEntryNeedsDeleting.Some? {
      sync := sync.(destEntryNeedsDeletingBehaviour := args.destEntryNeedsDeleting.value);
    }
    if args.destRootNeedsDeleting.Some? {
      sync := sync.(destRootNeedsDeletingBehaviour := args.destRootNeedsDeleting.value);
    }
  }

  /** `resolve_spec`: the base spec, then `--deploy`, then the loop that
      rewrites every sync in place. `loaded` is what reading and loading the
      `--spec` file gave. */
  method ResolveSpec(args: BossCliArgs, loaded: Result<seq<Yaml>, string>) returns (r: Result<Spec, string>)
    requires args.spec.None? ==> args.src.Some? && args.dest.Some?
    ensures BaseSpec(args, loaded).Failure? ==> r == BaseSpec(args, loaded)
    ensures BaseSpec(args, loaded).Success? ==> r == Success(Resolved(args, BaseSpec(args, loaded).value))
  {
    var spec := DefaultSpec;
    if args.spec.Some? {
      var parsed := ParseSpecFile(loaded);
      match parsed {
        case Success(s) => spec := s;
        case Failure(e) => return Failure("Failed to parse spec file at '" + args.spec.value + "': " + e);
      }
    } else {
      var src := args.src.value;
      var dest := args.dest.value;
      spec := spec.(srcHostname := src.hostname, srcUsername := src.username,
                    destHostname := dest.hostname, destUsername := dest.username);
      spec := spec.(syncs := spec.syncs + [DefaultSyncSpec.(src := src.path, dest := dest.path)]);
      assert spec.syncs == [DefaultSyncSpec.(src := src.path, dest := dest.path)];
    }
    ghost var base := spec;
    assert base == BaseSpec(args, loaded).value;
    if args.deploy.Some? {
      spec := spec.(deployBehaviour := args.deploy.value);
    }
    var syncs := spec.syncs;
    var i := 0;
    while i < |syncs|
      invariant 0 <= i <= |syncs| == |base.syncs|
      invariant forall k :: 0 <= k < i ==> syncs[k] == ResolvedSync(args, base.syncs[k])
      invariant forall k :: i <= k < |syncs| ==> syncs[k] == base.syncs[k]
    {
      var sync := ResolveSync(args, syncs[i]);
      syncs := syncs[i := sync];
      i := i + 1;
    }
    assert syncs == Resolved(args, base).syncs;
    spec := spec.(syncs := syncs);
    r := Success(spec);
  }

  // ---------------------------------------------------------------------
  // Properties of the precedence
  // ---------------------------------------------------------------------

  /** None of the five individual behaviour flags is given. */
  predicate NoIndividualFlags(args: BossCliArgs) {
    && args.destFileNewer.None? && args.destFileOlder.None? && args.filesSameTime.None?
    && args.destEntryNeedsDeleting.None? && args.destRootNeedsDeleting.None?
  }

  /** An individually given behaviour flag sets its field in every sync,
      whatever the spec file or `--all-destructive-behaviour` said. */
  lemma IndividualFlagsWin(args: BossCliArgs, base: Spec)
    ensures forall i :: 0 <= i < |base.syncs| ==>
      var s := Resolved(args, base).syncs[i];
      && (args.destFileNewer.Some? ==> s.destFileNewerBehaviour == args.destFileNewer.value)
      && (args.destFileOlder.Some? ==> s.destFileOlderBehaviour == args.destFileOlder.value)
      && (args.filesSameTime.Some? ==> s.filesSameTimeBehaviour == args.filesSameTime.value)
      && (args.destEntryNeedsDeleting.Some? ==> s.destEntryNeedsDeletingBehaviour == args.destEntryNeedsDeleting.value)
      && (args.destRootNeedsDeleting.Some? ==> s.destRootNeedsDeletingBehaviour == args.destRootNeedsDeleting.value)
  {
  }

  /** `--all-destructive-behaviour` changes a behaviour only when it is not
      Skip: with no individual flag for it, a Skip is kept, and anything
      else becomes the all-destructive value. */
  lemma AllDestructiveSparesSkip(args: BossCliArgs, s: SyncSpec)
    requires args.allDestructiveBehaviour.Some?
    ensures var all, t := args.allDestructiveBehaviour.value, ResolvedSync(args, s);
      && (args.destFileNewer.None? ==>
            t.destFileNewerBehaviour == if s.destFileNewerBehaviour.Skip? then DestFileUpdateBehaviour.Skip
                                        else AllToFileUpdate(all))
      && (args.destFileOlder.None? ==>
            t.destFileOlderBehaviour == if s.destFileOlderBehaviour.Skip? then DestFileUpdateBehaviour.Skip
                                        else AllToFileUpdate(all))
      && (args.filesSameTime.None? ==>
            t.filesSameTimeBehaviour == if s.filesSameTimeBehaviour.Skip? then DestFileUpdateBehaviour.Skip
                                        else AllToFileUpdate(all))
      && (args.destEntryNeedsDeleting.None? ==>
            t.destEntryNeedsDeletingBehaviour ==
              if s.destEntryNeedsDeletingBehaviour.Skip? then DestEntryNeedsDeletingBehaviour.Skip
              else AllToEntry(all))
      && (args.destRootNeedsDeleting.None? ==>
            t.destRootNeedsDeletingBehaviour ==
              if s.destRootNeedsDeletingBehaviour.Skip? then DestRootNeedsDeletingBehaviour.Skip
              else AllToRoot(all))
  {
  }

  /** "Safe" mode: with `--all-destructive-behaviour` prompt or error and no
      individual behaviour flags, no sync is left set to overwrite or delete. */
  lemma SafeModeAllowsNoDestruction(args: BossCliArgs, base: Spec)
    requires args.allDestructiveBehaviour == Some(AllDestructiveBehaviour.Prompt)
          || args.allDestructiveBehaviour == Some(AllDestructiveBehaviour.Error)
    requires NoIndividualFlags(args)
    ensures forall i :: 0 <= i < |base.syncs| ==>
      var s := Resolved(args, base).syncs[i];
      && !s.destFileNewerBehaviour.Overwrite? && !s.destFileOlderBehaviour.Overwrite?
      && !s.filesSameTimeBehaviour.Overwrite?
      && !s.destEntryNeedsDeletingBehaviour.Delete? && !s.destRootNeedsDeletingBehaviour.Delete?
  {
  }

  /** Paths are never changed; filters are replaced by a non-empty
      `--filter` list and kept otherwise; with no behaviour flags at all a
      sync keeps every behaviour it had. */
  lemma UnsetFlagsKeepValues(args: BossCliArgs, base: Spec)
    ensures forall i :: 0 <= i < |base.syncs| ==>
      var s, t := base.syncs[i], Resolved(args, base).syncs[i];
      && t.src == s.src && t.dest == s.dest
      && t.filters == (if args.filter == [] then s.filters else args.filter)
    ensures NoIndividualFlags(args) && args.allDestructiveBehaviour.None? && args.filter == [] ==>
      Resolved(args, base) == base.(deployBehaviour := Resolved(args, base).deployBehaviour)
    ensures Resolved(args, base).deployBehaviour == if args.deploy.Some? then args.deploy.value else base.deployBehaviour
  {
    if NoIndividualFlags(args) && args.allDestructiveBehaviour.None? && args.filter == [] {
      assert Resolved(args, base).syncs == base.syncs;
    }
  }

  /** Resolving twice with the same arguments changes nothing more. */
  lemma ResolveIdempotent(args: BossCliArgs, base: Spec)
    ensures Resolved(args, Resolved(args, base)) == Resolved(args, base)
  {
    var once := Resolved(args, base);
    forall i | 0 <= i < |base.syncs|
      ensures ResolvedSync(args, once.syncs[i]) == once.syncs[i]
    {
    }
    assert Resolved(args, once).syncs == once.syncs;
  }
}
