/** Cases from the spec-file unit tests, stated against the model over the
    loaded YAML tree, for any source and destination text. */
module SpecFileExamples {
  import opened Wrappers
  import opened YamlTree
  import opened SpecFile

  /** One sync with only `src` and `dest` gets every other field, and every
      root field, from the defaults. */
  lemma DefaultFields(src: string, dest: string)
    requires src != [] && dest != []
    ensures SpecFileOf(Success([Hash([(String("syncs"),
              Array([Hash([(String("src"), String(src)), (String("dest"), String(dest))])]))])])) ==
            Success(DefaultSpec.(syncs := [DefaultSyncSpec.(src := src, dest := dest)]))
  {
    var sync := Hash([(String("src"), String(src)), (String("dest"), String(dest))]);
    var expected := DefaultSyncSpec.(src := src, dest := dest);
    assert SyncEntries(DefaultSyncSpec.(src := src), [(String("dest"), String(dest))]) == Success(expected);
    assert SyncSpecOf(sync) == Success(expected);
    assert [sync][1..] == [] && [] + [expected] == [expected];
    assert SyncsFrom([], [sync]) == Success([expected]);
    var root := [(String("syncs"), Array([sync]))];
    assert SpecEntry(DefaultSpec, root[0].0, root[0].1) == Success(DefaultSpec.(syncs := [expected]));
    assert root[1..] == [];
    assert SpecEntries(DefaultSpec, root) == Success(DefaultSpec.(syncs := [expected]));
    assert SpecFileOf(Success([Hash(root)])) == Success(DefaultSpec.(syncs := [expected]));
  }

  /** A sync with `src` but no `dest` is rejected for the missing `dest`. */
  lemma MissingRequiredDest(src: string)
    requires src != []
    ensures SyncSpecOf(Hash([(String("src"), String(src))])) == Failure(DestMissing)
  {
    assert SyncEntries(DefaultSyncSpec, [(String("src"), String(src))]) == Success(DefaultSyncSpec.(src := src));
  }

  /** A sync with `dest` but no `src` is rejected for the missing `src`. */
  lemma MissingRequiredSrc(dest: string)
    ensures SyncSpecOf(Hash([(String("dest"), String(dest))])) == Failure(SrcMissing)
  {
    assert SyncEntries(DefaultSyncSpec, [(String("dest"), String(dest))]) == Success(DefaultSyncSpec.(dest := dest));
  }

  /** A behaviour value that names no variant is rejected with the lookup's
      own error, before the required fields are looked at. */
  lemma InvalidBehaviourValue(t: string)
    requires FromName(t, DestFileUpdateVariants).Failure?
    ensures SyncSpecOf(Hash([(String("dest_file_newer_behaviour"), String(t))])) == Failure("invalid variant: " + t)
  {
  }

  /** One entry of a sync dictionary, applied first. */
  lemma SyncEntriesStep(acc: SyncSpec, key: Yaml, value: Yaml, rest: seq<(Yaml, Yaml)>, next: SyncSpec)
    requires SyncEntry(acc, key, value) == Success(next)
    ensures SyncEntries(acc, [(key, value)] + rest) == SyncEntries(next, rest)
  {
    assert ([(key, value)] + rest)[1..] == rest;
  }

  /** A `filters` array of two strings appends both, in order. */
  lemma TwoFilters(acc: seq<string>, f1: string, f2: string)
    ensures FiltersFrom(acc, [String(f1), String(f2)]) == Success(acc + [f1, f2])
  {
    assert [String(f1), String(f2)][1..] == [String(f2)];
    assert [String(f2)][1..] == [];
    assert FiltersFrom(acc + [f1] + [f2], []) == Success(acc + [f1] + [f2]);
    assert FiltersFrom(acc + [f1], [String(f2)]) == Success(acc + [f1] + [f2]);
    assert acc + [f1] + [f2] == acc + [f1, f2];
  }

  // The `src`, `dest` and two-element `filters` entries, each applied first.

  lemma SrcEntry(acc: SyncSpec, text: string, rest: seq<(Yaml, Yaml)>)
    ensures SyncEntries(acc, [(String("src"), String(text))] + rest) == SyncEntries(acc.(src := text), rest)
  {
    SyncEntryStores(acc, String("src"), String(text));
    SyncEntriesStep(acc, String("src"), String(text), rest, acc.(src := text));
  }

  lemma DestEntry(acc: SyncSpec, text: string, rest: seq<(Yaml, Yaml)>)
    ensures SyncEntries(acc, [(String("dest"), String(text))] + rest) == SyncEntries(acc.(dest := text), rest)
  {
    SyncEntryStores(acc, String("dest"), String(text));
    SyncEntriesStep(acc, String("dest"), String(text), rest, acc.(dest := text));
  }

  lemma FiltersEntry(acc: SyncSpec, f1: string, f2: string, rest: seq<(Yaml, Yaml)>)
    ensures SyncEntries(acc, [(String("filters"), Array([String(f1), String(f2)]))] + rest)
            == SyncEntries(acc.(filters := acc.filters + [f1, f2]), rest)
  {
    TwoFilters(acc.filters, f1, f2);
    SyncEntryStores(acc, String("filters"), Array([String(f1), String(f2)]));
    SyncEntriesStep(acc, String("filters"), Array([String(f1), String(f2)]), rest,
                    acc.(filters := acc.filters + [f1, f2]));
  }

  // One behaviour entry each, applied first, in a context small enough to
  // prove quickly.

  lemma NewerEntry(acc: SyncSpec, name: string, rest: seq<(Yaml, Yaml)>)
    requires FromName(name, DestFileUpdateVariants).Success?
    ensures SyncEntries(acc, [(String("dest_file_newer_behaviour"), String(name))] + rest)
            == SyncEntries(acc.(destFileNewerBehaviour := FromName(name, DestFileUpdateVariants).value), rest)
  {
    SyncEntryStores(acc, String("dest_file_newer_behaviour"), String(name));
    SyncBehaviourEntryStores(acc, String("dest_file_newer_behaviour"), String(name));
    SyncEntriesStep(acc, String("dest_file_newer_behaviour"), String(name), rest, acc.(destFileNewerBehaviour := FromName(name, DestFileUpdateVariants).value));
  }

  lemma OlderEntry(acc: SyncSpec, name: string, rest: seq<(Yaml, Yaml)>)
    requires FromName(name, DestFileUpdateVariants).Success?
    ensures SyncEntries(acc, [(String("dest_file_older_behaviour"), String(name))] + rest)
            == SyncEntries(acc.(destFileOlderBehaviour := FromName(name, DestFileUpdateVariants).value), rest)
  {
    SyncEntryStores(acc, String("dest_file_older_behaviour"), String(name));
    SyncBehaviourEntryStores(acc, String("dest_file_older_behaviour"), String(name));
    SyncEntriesStep(acc, String("dest_file_older_behaviour"), String(name), rest, acc.(destFileOlderBehaviour := FromName(name, DestFileUpdateVariants).value));
  }

  lemma SameTimeEntry(acc: SyncSpec, name: string, rest: seq<(Yaml, Yaml)>)
    requires FromName(name, DestFileUpdateVariants).Success?
    ensures SyncEntries(acc, [(String("files_same_time_behaviour"), String(name))] + rest)
            == SyncEntries(acc.(filesSameTimeBehaviour := FromName(name, DestFileUpdateVariants).value), rest)
  {
    SyncEntryStores(acc, String("files_same_time_behaviour"), String(name));
    SyncBehaviourEntryStores(acc, String("files_same_time_behaviour"), String(name));
    SyncEntriesStep(acc, String("files_same_time_behaviour"), String(name), rest, acc.(filesSameTimeBehaviour := FromName(name, DestFileUpdateVariants).value));
  }

  lemma EntryDeletingEntry(acc: SyncSpec, name: string, rest: seq<(Yaml, Yaml)>)
    requires FromName(name, DestEntryNeedsDeletingVariants).Success?
    ensures SyncEntries(acc, [(String("dest_entry_needs_deleting_behaviour"), String(name))] + rest)
            == SyncEntries(acc.(destEntryNeedsDeletingBehaviour := FromName(name, DestEntryNeedsDeletingVariants).value), rest)
  {
    SyncEntryStores(acc, String("dest_entry_needs_deleting_behaviour"), String(name));
    SyncBehaviourEntryStores(acc, String("dest_entry_needs_deleting_behaviour"), String(name));
    SyncEntriesStep(acc, String("dest_entry_needs_deleting_behaviour"), String(name), rest, acc.(destEntryNeedsDeletingBehaviour := FromName(name, DestEntryNeedsDeletingVariants).value));
  }

  lemma RootDeletingEntry(acc: SyncSpec, name: string, rest: seq<(Yaml, Yaml)>)
    requires FromName(name, DestRootNeedsDeletingVariants).Success?
    ensures SyncEntries(acc, [(String("dest_root_needs_deleting_behaviour"), String(name))] + rest)
            == SyncEntries(acc.(destRootNeedsDeletingBehaviour := FromName(name, DestRootNeedsDeletingVariants).value), rest)
  {
    SyncEntryStores(acc, String("dest_root_needs_deleting_behaviour"), String(name));
    SyncBehaviourEntryStores(acc, String("dest_root_needs_deleting_behaviour"), String(name));
    SyncEntriesStep(acc, String("dest_root_needs_deleting_behaviour"), String(name), rest, acc.(destRootNeedsDeletingBehaviour := FromName(name, DestRootNeedsDeletingVariants).value));
  }

  /** The five behaviour entries of a sync, each naming a variant. */
  function BehaviourEntries(newer: string, older: string, same: string, entry: string, root: string): seq<(Yaml, Yaml)> {
    [(String("dest_file_newer_behaviour"), String(newer))] +
    ([(String("dest_file_older_behaviour"), String(older))] +
     ([(String("files_same_time_behaviour"), String(same))] +
      ([(String("dest_entry_needs_deleting_behaviour"), String(entry))] +
       ([(String("dest_root_needs_deleting_behaviour"), String(root))] + []))))
  }

  /** The five behaviour entries set the five behaviours to the variants
      they name. */
  lemma BehaviourEntriesParse(acc: SyncSpec, newer: string, older: string, same: string, entry: string, root: string)
    requires FromName(newer, DestFileUpdateVariants).Success?
    requires FromName(older, DestFileUpdateVariants).Success?
    requires FromName(same, DestFileUpdateVariants).Success?
    requires FromName(entry, DestEntryNeedsDeletingVariants).Success?
    requires FromName(root, DestRootNeedsDeletingVariants).Success?
    ensures SyncEntries(acc, BehaviourEntries(newer, older, same, entry, root)) ==
            Success(acc.(destFileNewerBehaviour := FromName(newer, DestFileUpdateVariants).value,
                         destFileOlderBehaviour := FromName(older, DestFileUpdateVariants).value,
                         filesSameTimeBehaviour := FromName(same, DestFileUpdateVariants).value,
                         destEntryNeedsDeletingBehaviour := FromName(entry, DestEntryNeedsDeletingVariants).value,
                         destRootNeedsDeletingBehaviour := FromName(root, DestRootNeedsDeletingVariants).value))
  {
    var s1 := acc.(destFileNewerBehaviour := FromName(newer, DestFileUpdateVariants).value);
    var s2 := s1.(destFileOlderBehaviour := FromName(older, DestFileUpdateVariants).value);
    var s3 := s2.(filesSameTimeBehaviour := FromName(same, DestFileUpdateVariants).value);
    var s4 := s3.(destEntryNeedsDeletingBehaviour := FromName(entry, DestEntryNeedsDeletingVariants).value);
    NewerEntry(acc, newer, [(String("dest_file_older_behaviour"), String(older))] +
      ([(String("files_same_time_behaviour"), String(same))] +
       ([(String("dest_entry_needs_deleting_behaviour"), String(entry))] +
        ([(String("dest_root_needs_deleting_behaviour"), String(root))] + []))));
    OlderEntry(s1, older, [(String("files_same_time_behaviour"), String(same))] +
      ([(String("dest_entry_needs_deleting_behaviour"), String(entry))] +
       ([(String("dest_root_needs_deleting_behaviour"), String(root))] + [])));
    SameTimeEntry(s2, same, [(String("dest_entry_needs_deleting_behaviour"), String(entry))] +
      ([(String("dest_root_needs_deleting_behaviour"), String(root))] + []));
    EntryDeletingEntry(s3, entry, [(String("dest_root_needs_deleting_behaviour"), String(root))] + []);
    RootDeletingEntry(s4, root, []);
  }

  /** A sync dictionary that sets every field: `src`, `dest`, a two-element
      `filters` array and the five behaviours by name, in that order. */
  function FullSync(src: string, dest: string, f1: string, f2: string,
                    newer: string, older: string, same: string, entry: string, root: string): Yaml
  {
    Hash([(String("src"), String(src))] +
         ([(String("dest"), String(dest))] +
          ([(String("filters"), Array([String(f1), String(f2)]))] +
           BehaviourEntries(newer, older, same, entry, root))))
  }

  /** Every field of a sync that sets them all is taken from the YAML. */
  lemma FullSyncParses(src: string, dest: string, f1: string, f2: string,
                       newer: string, older: string, same: string, entry: string, root: string)
    requires src != [] && dest != []
    requires FromName(newer, DestFileUpdateVariants).Success?
    requires FromName(older, DestFileUpdateVariants).Success?
    requires FromName(same, DestFileUpdateVariants).Success?
    requires FromName(entry, DestEntryNeedsDeletingVariants).Success?
    requires FromName(root, DestRootNeedsDeletingVariants).Success?
    ensures SyncSpecOf(FullSync(src, dest, f1, f2, newer, older, same, entry, root)) ==
            Success(SyncSpec(src, dest, [f1, f2],
                             FromName(newer, DestFileUpdateVariants).value,
                             FromName(older, DestFileUpdateVariants).value,
                             FromName(same, DestFileUpdateVariants).value,
                             FromName(entry, DestEntryNeedsDeletingVariants).value,
                             FromName(root, DestRootNeedsDeletingVariants).value))
  {
    var behaviours := BehaviourEntries(newer, older, same, entry, root);
    var s1 := DefaultSyncSpec.(src := src);
    var s2 := s1.(dest := dest);
    assert s2.filters + [f1, f2] == [f1, f2];
    SrcEntry(DefaultSyncSpec, src, [(String("dest"), String(dest))] +
      ([(String("filters"), Array([String(f1), String(f2)]))] + behaviours));
    DestEntry(s1, dest, [(String("filters"), Array([String(f1), String(f2)]))] + behaviours);
    FiltersEntry(s2, f1, f2, behaviours);
    BehaviourEntriesParse(s2.(filters := [f1, f2]), newer, older, same, entry, root);
  }

  /** One entry of the root dictionary, applied first. */
  lemma SpecEntriesStep(acc: Spec, key: Yaml, value: Yaml, rest: seq<(Yaml, Yaml)>, next: Spec)
    requires SpecEntry(acc, key, value) == Success(next)
    ensures SpecEntries(acc, [(key, value)] + rest) == SpecEntries(next, rest)
  {
    assert ([(key, value)] + rest)[1..] == rest;
  }

  // One root entry each, applied first.

  lemma SrcHostnameEntry(acc: Spec, text: string, rest: seq<(Yaml, Yaml)>)
    ensures SpecEntries(acc, [(String("src_hostname"), String(text))] + rest) == SpecEntries(acc.(srcHostname := text), rest)
  {
    SpecEntryStores(acc, String("src_hostname"), String(text));
    SpecEntriesStep(acc, String("src_hostname"), String(text), rest, acc.(srcHostname := text));
  }

  lemma SrcUsernameEntry(acc: Spec, text: string, rest: seq<(Yaml, Yaml)>)
    ensures SpecEntries(acc, [(String("src_username"), String(text))] + rest) == SpecEntries(acc.(srcUsername := text), rest)
  {
    SpecEntryStores(acc, String("src_username"), String(text));
    SpecEntriesStep(acc, String("src_username"), String(text), rest, acc.(srcUsername := text));
  }

  lemma DestHostnameEntry(acc: Spec, text: string, rest: seq<(Yaml, Yaml)>)
    ensures SpecEntries(acc, [(String("dest_hostname"), String(text))] + rest) == SpecEntries(acc.(destHostname := text), rest)
  {
    SpecEntryStores(acc, String("dest_hostname"), String(text));
    SpecEntriesStep(acc, String("dest_hostname"), String(text), rest, acc.(destHostname := text));
  }

  lemma DestUsernameEntry(acc: Spec, text: string, rest: seq<(Yaml, Yaml)>)
    ensures SpecEntries(acc, [(String("dest_username"), String(text))] + rest) == SpecEntries(acc.(destUsername := text), rest)
  {
    SpecEntryStores(acc, String("dest_username"), String(text));
    SpecEntriesStep(acc, String("dest_username"), String(text), rest, acc.(destUsername := text));
  }

  lemma DeployEntry(acc: Spec, name: string, rest: seq<(Yaml, Yaml)>)
    requires FromName(name, DeployVariants).Success?
    ensures SpecEntries(acc, [(String("deploy_behaviour"), String(name))] + rest)
            == SpecEntries(acc.(deployBehaviour := FromName(name, DeployVariants).value), rest)
  {
    SpecEntryStores(acc, String("deploy_behaviour"), String(name));
    SpecEntriesStep(acc, String("deploy_behaviour"), String(name), rest,
                    acc.(deployBehaviour := FromName(name, DeployVariants).value));
  }

  lemma SyncsEntry(acc: Spec, sync1: Yaml, sync2: Yaml, rest: seq<(Yaml, Yaml)>)
    requires SyncSpecOf(sync1).Success? && SyncSpecOf(sync2).Success?
    ensures SpecEntries(acc, [(String("syncs"), Array([sync1, sync2]))] + rest)
            == SpecEntries(acc.(syncs := acc.syncs + [SyncSpecOf(sync1).value, SyncSpecOf(sync2).value]), rest)
  {
    var ss := acc.syncs + [SyncSpecOf(sync1).value, SyncSpecOf(sync2).value];
    assert SyncsFrom(acc.syncs, [sync1, sync2]) == Success(ss) by {
      var a1 := acc.syncs + [SyncSpecOf(sync1).value];
      assert [sync1, sync2][1..] == [sync2];
      assert [sync2][1..] == [];
      assert SyncsFrom(a1 + [SyncSpecOf(sync2).value], []) == Success(a1 + [SyncSpecOf(sync2).value]);
      assert SyncsFrom(a1, [sync2]) == Success(a1 + [SyncSpecOf(sync2).value]);
      assert a1 + [SyncSpecOf(sync2).value] == ss;
    }
    SpecEntryStores(acc, String("syncs"), Array([sync1, sync2]));
    SpecEntriesStep(acc, String("syncs"), Array([sync1, sync2]), rest, acc.(syncs := ss));
  }

  /** A root dictionary that sets every field, with two syncs. */
  function FullRoot(srcHost: string, srcUser: string, destHost: string, destUser: string,
                    deploy: string, sync1: Yaml, sync2: Yaml): Yaml
  {
    Hash([(String("src_hostname"), String(srcHost))] +
         ([(String("src_username"), String(srcUser))] +
          ([(String("dest_hostname"), String(destHost))] +
           ([(String("dest_username"), String(destUser))] +
            ([(String("deploy_behaviour"), String(deploy))] +
             ([(String("syncs"), Array([sync1, sync2]))] + []))))))
  }

  /** Every root field of a spec file that sets them all is taken from the
      YAML, and the syncs are the parses of its two sync dictionaries. */
  lemma FullRootParses(srcHost: string, srcUser: string, destHost: string, destUser: string,
                       deploy: string, sync1: Yaml, sync2: Yaml)
    requires FromName(deploy, DeployVariants).Success?
    requires SyncSpecOf(sync1).Success? && SyncSpecOf(sync2).Success?
    ensures SpecFileOf(Success([FullRoot(srcHost, srcUser, destHost, destUser, deploy, sync1, sync2)])) ==
            Success(Spec(srcHost, srcUser, destHost, destUser, FromName(deploy, DeployVariants).value,
                         [SyncSpecOf(sync1).value, SyncSpecOf(sync2).value]))
  {
    var s1 := DefaultSpec.(srcHostname := srcHost);
    var s2 := s1.(srcUsername := srcUser);
    var s3 := s2.(destHostname := destHost);
    var s4 := s3.(destUsername := destUser);
    var s5 := s4.(deployBehaviour := FromName(deploy, DeployVariants).value);
    var tail := [(String("syncs"), Array([sync1, sync2]))] + [];
    SrcHostnameEntry(DefaultSpec, srcHost, [(String("src_username"), String(srcUser))] +
      ([(String("dest_hostname"), String(destHost))] + ([(String("dest_username"), String(destUser))] +
       ([(String("deploy_behaviour"), String(deploy))] + tail))));
    SrcUsernameEntry(s1, srcUser, [(String("dest_hostname"), String(destHost))] +
      ([(String("dest_username"), String(destUser))] + ([(String("deploy_behaviour"), String(deploy))] + tail)));
    DestHostnameEntry(s2, destHost, [(String("dest_username"), String(destUser))] +
      ([(String("deploy_behaviour"), String(deploy))] + tail));
    DestUsernameEntry(s3, destUser, [(String("deploy_behaviour"), String(deploy))] + tail);
    DeployEntry(s4, deploy, tail);
    SyncsEntry(s5, sync1, sync2, []);
    assert s5.syncs + [SyncSpecOf(sync1).value, SyncSpecOf(sync2).value]
        == [SyncSpecOf(sync1).value, SyncSpecOf(sync2).value];
  }

  /** The spec file of the all-fields unit test: two syncs that set every
      field, under a root that sets every field. */
  lemma AllFields()
    ensures SpecFileOf(Success([FullRoot("computer1", "user1", "computer2", "user2", "ok",
              FullSync("T:\\Source1", "T:\\Dest1", "-exclude1", "-exclude2",
                       "error", "skip", "overwrite", "prompt", "delete"),
              FullSync("T:\\Source2", "T:\\Dest2", "-exclude3", "-exclude4",
                       "prompt", "overwrite", "error", "error", "skip"))])) ==
            Success(Spec("computer1", "user1", "computer2", "user2", DeployBehaviour.Ok, [
              SyncSpec("T:\\Source1", "T:\\Dest1", ["-exclude1", "-exclude2"],
                       DestFileUpdateBehaviour.Error, DestFileUpdateBehaviour.Skip,
                       DestFileUpdateBehaviour.Overwrite, DestEntryNeedsDeletingBehaviour.Prompt,
                       DestRootNeedsDeletingBehaviour.Delete),
              SyncSpec("T:\\Source2", "T:\\Dest2", ["-exclude3", "-exclude4"],
                       DestFileUpdateBehaviour.Prompt, DestFileUpdateBehaviour.Overwrite,
                       DestFileUpdateBehaviour.Error, DestEntryNeedsDeletingBehaviour.Error,
                       DestRootNeedsDeletingBehaviour.Skip)]))
  {
    DeployNamesParse();
    DestFileUpdateNamesParse();
    DestEntryNeedsDeletingNamesParse();
    DestRootNeedsDeletingNamesParse();
    assert FromName(DeployVariants[2].0, DeployVariants) == Success(DeployBehaviour.Ok);
    assert FromName(DestFileUpdateVariants[0].0, DestFileUpdateVariants) == Success(DestFileUpdateBehaviour.Prompt);
    assert FromName(DestFileUpdateVariants[1].0, DestFileUpdateVariants) == Success(DestFileUpdateBehaviour.Error);
    assert FromName(DestFileUpdateVariants[2].0, DestFileUpdateVariants) == Success(DestFileUpdateBehaviour.Skip);
    assert FromName(DestFileUpdateVariants[3].0, DestFileUpdateVariants) == Success(DestFileUpdateBehaviour.Overwrite);
    assert FromName(DestEntryNeedsDeletingVariants[0].0, DestEntryNeedsDeletingVariants) == Success(DestEntryNeedsDeletingBehaviour.Prompt);
    assert FromName(DestEntryNeedsDeletingVariants[1].0, DestEntryNeedsDeletingVariants) == Success(DestEntryNeedsDeletingBehaviour.Error);
    assert FromName(DestRootNeedsDeletingVariants[2].0, DestRootNeedsDeletingVariants) == Success(DestRootNeedsDeletingBehaviour.Skip);
    assert FromName(DestRootNeedsDeletingVariants[3].0, DestRootNeedsDeletingVariants) == Success(DestRootNeedsDeletingBehaviour.Delete);
    FullSyncParses("T:\\Source1", "T:\\Dest1", "-exclude1", "-exclude2", "error", "skip", "overwrite", "prompt", "delete");
    FullSyncParses("T:\\Source2", "T:\\Dest2", "-exclude3", "-exclude4", "prompt", "overwrite", "error", "error", "skip");
    FullRootParses("computer1", "user1", "computer2", "user2", "ok",
      FullSync("T:\\Source1", "T:\\Dest1", "-exclude1", "-exclude2", "error", "skip", "overwrite", "prompt", "delete"),
      FullSync("T:\\Source2", "T:\\Dest2", "-exclude3", "-exclude4", "prompt", "overwrite", "error", "error", "skip"));
  }

  // The error tests: each document is one `key: value` entry, or one sync
  // with one entry, and is rejected with the message the test looks for.

  /** A root dictionary of a single entry is that entry applied to the
      defaults. */
  lemma SingleRootEntry(key: Yaml, value: Yaml)
    ensures SpecFileOf(Success([Hash([(key, value)])])) == SpecEntries(DefaultSpec, [(key, value)])
  {
  }

  /** A `syncs` array with a single element fails as that element's parse
      does. */
  lemma SingleSyncRejected(sync: Yaml)
    requires SyncSpecOf(sync).Failure?
    ensures SpecFileOf(Success([Hash([(String("syncs"), Array([sync]))])])) == Failure(SyncSpecOf(sync).error)
  {
    SpecEntryStores(DefaultSpec, String("syncs"), Array([sync]));
    assert SpecEntries(DefaultSpec, [(String("syncs"), Array([sync]))]) == Failure(SyncSpecOf(sync).error);
  }

  /** `123`: the document is not a dictionary. */
  lemma InvalidRoot()
    ensures SpecFileOf(Success([Integer(123)])) == Failure(RootNotDictionary)
  {
  }

  /** `dest_hostname: [ 341 ]`: a string field holding an array. */
  lemma InvalidStringField()
    ensures SpecFileOf(Success([Hash([(String("dest_hostname"), Array([Integer(341)]))])])) ==
            Failure("Unexpected value for '" + "dest_hostname" + "'. Expected a string, but got "
                    + DebugText(Array([Integer(341)])))
  {
    SingleRootEntry(String("dest_hostname"), Array([Integer(341)]));
    SpecEntryRejectsWrongType(DefaultSpec, String("dest_hostname"), Array([Integer(341)]));
  }

  /** `this-isnt-valid: 0`: a key the root dictionary does not have. */
  lemma InvalidFieldName()
    ensures SpecFileOf(Success([Hash([(String("this-isnt-valid"), Integer(0))])])) ==
            Failure("Unexpected key in root dictionary: " + DebugText(String("this-isnt-valid")))
  {
    assert |"this-isnt-valid"| == 15;
    assert !IsRootKey(String("this-isnt-valid"));
    SingleRootEntry(String("this-isnt-valid"), Integer(0));
  }

  /** `syncs: 0`: `syncs` is not an array. */
  lemma InvalidSyncsField()
    ensures SpecFileOf(Success([Hash([(String("syncs"), Integer(0))])])) ==
            Failure("Unexpected value for 'syncs'. Expected an array, but got " + DebugText(Integer(0)))
  {
    SingleRootEntry(String("syncs"), Integer(0));
    SpecEntryRejectsWrongType(DefaultSpec, String("syncs"), Integer(0));
  }

  /** `syncs: [ not-a-dict ]`: a sync that is not a dictionary. */
  lemma InvalidSyncSpecType()
    ensures SpecFileOf(Success([Hash([(String("syncs"), Array([String("not-a-dict")]))])])) ==
            Failure(SyncNotDictionary)
  {
    SingleSyncRejected(String("not-a-dict"));
  }

  /** `syncs: [ { unexpected-field: 0 } ]`: a key a sync does not have. */
  lemma InvalidSyncSpecField()
    ensures SpecFileOf(Success([Hash([(String("syncs"), Array([Hash([(String("unexpected-field"), Integer(0))])]))])])) ==
            Failure("Unexpected key in 'syncs' entry: " + DebugText(String("unexpected-field")))
  {
    var sync := Hash([(String("unexpected-field"), Integer(0))]);
    assert |"unexpected-field"| == 16;
    assert !IsSyncKey(String("unexpected-field"));
    assert SyncEntries(DefaultSyncSpec, sync.entries)
        == Failure("Unexpected key in 'syncs' entry: " + DebugText(String("unexpected-field")));
    SingleSyncRejected(sync);
  }

  /** `syncs: [ { filters: 0 } ]`: `filters` is not an array. */
  lemma InvalidFiltersType()
    ensures SpecFileOf(Success([Hash([(String("syncs"), Array([Hash([(String("filters"), Integer(0))])]))])])) ==
            Failure("Unexpected value for 'filters'. Expected an array, but got " + DebugText(Integer(0)))
  {
    var sync := Hash([(String("filters"), Integer(0))]);
    SyncEntryStores(DefaultSyncSpec, String("filters"), Integer(0));
    assert SyncEntries(DefaultSyncSpec, sync.entries)
        == Failure("Unexpected value for 'filters'. Expected an array, but got " + DebugText(Integer(0)));
    SingleSyncRejected(sync);
  }

  /** `syncs: [ { filters: [ 9 ] } ]`: a filter that is not a string. */
  lemma InvalidFiltersElement()
    ensures SpecFileOf(Success([Hash([(String("syncs"), Array([Hash([(String("filters"), Array([Integer(9)]))])]))])])) ==
            Failure("Unexpected value in 'filters' array. Expected string, but got " + DebugText(Integer(9)))
  {
    var sync := Hash([(String("filters"), Array([Integer(9)]))]);
    SyncEntryStores(DefaultSyncSpec, String("filters"), Array([Integer(9)]));
    assert SyncEntries(DefaultSyncSpec, sync.entries)
        == Failure("Unexpected value in 'filters' array. Expected string, but got " + DebugText(Integer(9)));
    SingleSyncRejected(sync);
  }
}
