/** The two `resolve_spec` unit tests, stated on the spec records their spec
    files parse to. */
module CliExamples {
  import opened Wrappers
  import opened SpecFile
  import opened Cli

  function SpecArgs(path: string): BossCliArgs {
    BossCliArgs(None, None, Some(path), [], None, None, None, None, None, None, None)
  }

  /** `--filter -meow --dest-file-newer=error --deploy=ok` over a spec file
      that sets deploy error, one sync's filters, its newer behaviour (skip)
      and its root behaviour (error). */
  lemma OverridesExample(path: string)
    ensures var args := SpecArgs(path).(filter := ["-meow"], destFileNewer := Some(DestFileUpdateBehaviour.Error),
                                        deploy := Some(DeployBehaviour.Ok));
      var base := DefaultSpec.(deployBehaviour := DeployBehaviour.Error, syncs := [
        DefaultSyncSpec.(src := "a", dest := "b", filters := ["+hello"],
                         destFileNewerBehaviour := DestFileUpdateBehaviour.Skip,
                         destRootNeedsDeletingBehaviour := DestRootNeedsDeletingBehaviour.Error),
        DefaultSyncSpec.(src := "c", dest := "d")]);
      Resolved(args, base) == DefaultSpec.(deployBehaviour := DeployBehaviour.Ok, syncs := [
        DefaultSyncSpec.(src := "a", dest := "b", filters := ["-meow"],
                         destFileNewerBehaviour := DestFileUpdateBehaviour.Error,
                         destRootNeedsDeletingBehaviour := DestRootNeedsDeletingBehaviour.Error),
        DefaultSyncSpec.(src := "c", dest := "d", filters := ["-meow"],
                         destFileNewerBehaviour := DestFileUpdateBehaviour.Error)])
  {
  }

  /** `--all-destructive-behaviour=error --dest-file-older=overwrite` over a
      spec file whose first sync sets newer skip, root prompt and same-time
      overwrite: the Skip stays, the individual flag wins, everything else
      becomes error. */
  lemma AllDestructiveExample(path: string)
    ensures var args := SpecArgs(path).(allDestructiveBehaviour := Some(AllDestructiveBehaviour.Error),
                                        destFileOlder := Some(DestFileUpdateBehaviour.Overwrite));
      var base := DefaultSpec.(syncs := [
        DefaultSyncSpec.(src := "a", dest := "b",
                         destFileNewerBehaviour := DestFileUpdateBehaviour.Skip,
                         destRootNeedsDeletingBehaviour := DestRootNeedsDeletingBehaviour.Prompt,
                         filesSameTimeBehaviour := DestFileUpdateBehaviour.Overwrite),
        DefaultSyncSpec.(src := "c", dest := "d")]);
      Resolved(args, base) == DefaultSpec.(syncs := [
        DefaultSyncSpec.(src := "a", dest := "b",
                         destFileNewerBehaviour := DestFileUpdateBehaviour.Skip,
                         destFileOlderBehaviour := DestFileUpdateBehaviour.Overwrite,
                         filesSameTimeBehaviour := DestFileUpdateBehaviour.Error,
                         destEntryNeedsDeletingBehaviour := DestEntryNeedsDeletingBehaviour.Error,
                         destRootNeedsDeletingBehaviour := DestRootNeedsDeletingBehaviour.Error),
        DefaultSyncSpec.(src := "c", dest := "d",
                         destFileNewerBehaviour := DestFileUpdateBehaviour.Error,
                         destFileOlderBehaviour := DestFileUpdateBehaviour.Overwrite,
                         filesSameTimeBehaviour := DestFileUpdateBehaviour.Skip,
                         destEntryNeedsDeletingBehaviour := DestEntryNeedsDeletingBehaviour.Error,
                         destRootNeedsDeletingBehaviour := DestRootNeedsDeletingBehaviour.Error)])
  {
  }
}
