/** The sync specification: the behaviour enums, the SyncSpec and Spec
    records with their defaults, and the validation of a loaded YAML spec
    file into them. Each parser is a fold function (the specification) and
    a method with the source's loops, proved equal to it. */
module SpecFile {
  import opened Wrappers
  import opened YamlTree

  datatype DeployBehaviour = Prompt | Error | Ok | Force
  datatype DestFileUpdateBehaviour = Prompt | Error | Skip | Overwrite
  datatype DestEntryNeedsDeletingBehaviour = Prompt | Error | Skip | Delete
  datatype DestRootNeedsDeletingBehaviour = Prompt | Error | Skip | Delete
  datatype AllDestructiveBehaviour = Prompt | Error | Skip | Proceed

  /** The command-line names of the variants, in declaration order: what the
      argument parser derives for each enum (its variant names in lower case). */
  const DeployVariants: seq<(string, DeployBehaviour)> :=
    [("prompt", DeployBehaviour.Prompt), ("error", DeployBehaviour.Error),
     ("ok", DeployBehaviour.Ok), ("force", DeployBehaviour.Force)]
  const DestFileUpdateVariants: seq<(string, DestFileUpdateBehaviour)> :=
    [("prompt", DestFileUpdateBehaviour.Prompt), ("error", DestFileUpdateBehaviour.Error),
     ("skip", DestFileUpdateBehaviour.Skip), ("overwrite", DestFileUpdateBehaviour.Overwrite)]
  const DestEntryNeedsDeletingVariants: seq<(string, DestEntryNeedsDeletingBehaviour)> :=
    [("prompt", DestEntryNeedsDeletingBehaviour.Prompt), ("error", DestEntryNeedsDeletingBehaviour.Error),
     ("skip", DestEntryNeedsDeletingBehaviour.Skip), ("delete", DestEntryNeedsDeletingBehaviour.Delete)]
  const DestRootNeedsDeletingVariants: seq<(string, DestRootNeedsDeletingBehaviour)> :=
    [("prompt", DestRootNeedsDeletingBehaviour.Prompt), ("error", DestRootNeedsDeletingBehaviour.Error),
     ("skip", DestRootNeedsDeletingBehaviour.Skip), ("delete", DestRootNeedsDeletingBehaviour.Delete)]

  function LowerAscii(c: char): char {
    if 'A' <= c <= 'Z' then (c as int - 'A' as int + 'a' as int) as char else c
  }

  predicate EqIgnoreAsciiCase(a: string, b: string) {
    |a| == |b| && forall i :: 0 <= i < |a| ==> LowerAscii(a[i]) == LowerAscii(b[i])
  }

  /** Case-insensitive lookup of a variant by name (`ValueEnum::from_str`
      with `ignore_case` set): the first variant whose name matches, or the
      error "invalid variant: <s>". */
  function FromName<T>(s: string, variants: seq<(string, T)>): (r: Result<T, string>)
    ensures r.Success? ==> exists i :: 0 <= i < |variants| && EqIgnoreAsciiCase(s, variants[i].0) && r.value == variants[i].1
    ensures r.Failure? ==> r.error == "invalid variant: " + s
    ensures r.Failure? <==> forall i :: 0 <= i < |variants| ==> !EqIgnoreAsciiCase(s, variants[i].0)
  {
    if variants == [] then Failure("invalid variant: " + s)
    else if EqIgnoreAsciiCase(s, variants[0].0) then Success(variants[0].1)
    else
      var r := FromName(s, variants[1..]);
      assert forall i :: 1 <= i < |variants| ==> variants[i] == variants[1..][i - 1];
      r
  }

  ghost predicate DistinctNames<T>(variants: seq<(string, T)>) {
    forall i, j :: 0 <= i < j < |variants| ==> !EqIgnoreAsciiCase(variants[i].0, variants[j].0)
  }

  /** With names distinct up to case, each variant's own name selects it. */
  lemma {:induction false} FromNameOfVariant<T>(variants: seq<(string, T)>, i: nat)
    requires DistinctNames(variants) && i < |variants|
    ensures FromName(variants[i].0, variants) == Success(variants[i].1)
  {
    if i > 0 {
      assert !EqIgnoreAsciiCase(variants[0].0, variants[i].0);
      assert !EqIgnoreAsciiCase(variants[i].0, variants[0].0);
      var rest := variants[1..];
      assert rest[i - 1] == variants[i];
      assert DistinctNames(rest) by {
        forall a, b | 0 <= a < b < |rest| ensures !EqIgnoreAsciiCase(rest[a].0, rest[b].0) {
          assert rest[a] == variants[a + 1] && rest[b] == variants[b + 1];
        }
      }
      FromNameOfVariant(rest, i - 1);
    }
  }

  lemma FirstLettersDiffer(a: string, b: string)
    requires a != [] && b != [] && LowerAscii(a[0]) != LowerAscii(b[0])
    ensures !EqIgnoreAsciiCase(a, b)
  {
  }

  /** Each behaviour's own name parses back to it (the names differ in their
      first letter). */
  lemma DeployNamesParse()
    ensures forall i :: 0 <= i < |DeployVariants| ==> FromName(DeployVariants[i].0, DeployVariants) == Success(DeployVariants[i].1)
  {
    assert DistinctNames(DeployVariants) by {
      forall i, j | 0 <= i < j < |DeployVariants| ensures !EqIgnoreAsciiCase(DeployVariants[i].0, DeployVariants[j].0) {
        FirstLettersDiffer(DeployVariants[i].0, DeployVariants[j].0);
      }
    }
    forall i | 0 <= i < |DeployVariants| { FromNameOfVariant(DeployVariants, i); }
  }

  lemma DestFileUpdateNamesParse()
    ensures forall i :: 0 <= i < |DestFileUpdateVariants| ==> FromName(DestFileUpdateVariants[i].0, DestFileUpdateVariants) == Success(DestFileUpdateVariants[i].1)
  {
    assert DistinctNames(DestFileUpdateVariants) by {
      forall i, j | 0 <= i < j < |DestFileUpdateVariants| ensures !EqIgnoreAsciiCase(DestFileUpdateVariants[i].0, DestFileUpdateVariants[j].0) {
        FirstLettersDiffer(DestFileUpdateVariants[i].0, DestFileUpdateVariants[j].0);
      }
    }
    forall i | 0 <= i < |DestFileUpdateVariants| { FromNameOfVariant(DestFileUpdateVariants, i); }
  }

  lemma DestEntryNeedsDeletingNamesParse()
    ensures forall i :: 0 <= i < |DestEntryNeedsDeletingVariants| ==> FromName(DestEntryNeedsDeletingVariants[i].0, DestEntryNeedsDeletingVariants) == Success(DestEntryNeedsDeletingVariants[i].1)
  {
    assert DistinctNames(DestEntryNeedsDeletingVariants) by {
      forall i, j | 0 <= i < j < |DestEntryNeedsDeletingVariants| ensures !EqIgnoreAsciiCase(DestEntryNeedsDeletingVariants[i].0, DestEntryNeedsDeletingVariants[j].0) {
        FirstLettersDiffer(DestEntryNeedsDeletingVariants[i].0, DestEntryNeedsDeletingVariants[j].0);
      }
    }
    forall i | 0 <= i < |DestEntryNeedsDeletingVariants| { FromNameOfVariant(DestEntryNeedsDeletingVariants, i); }
  }

  lemma DestRootNeedsDeletingNamesParse()
    ensures forall i :: 0 <= i < |DestRootNeedsDeletingVariants| ==> FromName(DestRootNeedsDeletingVariants[i].0, DestRootNeedsDeletingVariants) == Success(DestRootNeedsDeletingVariants[i].1)
  {
    assert DistinctNames(DestRootNeedsDeletingVariants) by {
      forall i, j | 0 <= i < j < |DestRootNeedsDeletingVariants| ensures !EqIgnoreAsciiCase(DestRootNeedsDeletingVariants[i].0, DestRootNeedsDeletingVariants[j].0) {
        FirstLettersDiffer(DestRootNeedsDeletingVariants[i].0, DestRootNeedsDeletingVariants[j].0);
      }
    }
    forall i | 0 <= i < |DestRootNeedsDeletingVariants| { FromNameOfVariant(DestRootNeedsDeletingVariants, i); }
  }

  /** One sync between a source and a destination path. */
  datatype SyncSpec = SyncSpec(
    src: string,
    dest: string,
    filters: seq<string>,
    destFileNewerBehaviour: DestFileUpdateBehaviour,
    destFileOlderBehaviour: DestFileUpdateBehaviour,
    filesSameTimeBehaviour: DestFileUpdateBehaviour,
    destEntryNeedsDeletingBehaviour: DestEntryNeedsDeletingBehaviour,
    destRootNeedsDeletingBehaviour: DestRootNeedsDeletingBehaviour)

  /** What to sync: the two hosts, shared by all syncs, and the syncs. */
  datatype Spec = Spec(
    srcHostname: string,
    srcUsername: string,
    destHostname: string,
    destUsername: string,
    deployBehaviour: DeployBehaviour,
    syncs: seq<SyncSpec>)

  /** `SyncSpec::default()`. */
  const DefaultSyncSpec := SyncSpec("", "", [],
    DestFileUpdateBehaviour.Prompt, DestFileUpdateBehaviour.Overwrite, DestFileUpdateBehaviour.Skip,
    DestEntryNeedsDeletingBehaviour.Delete, DestRootNeedsDeletingBehaviour.Prompt)

  /** `Spec::default()`. */
  const DefaultSpec := Spec("", "", "", "", DeployBehaviour.Prompt, [])

  const SrcMissing := "src must be provided and non-empty"
  const DestMissing := "dest must be provided and non-empty"
  const SyncNotDictionary := "Sync value must be a dictionary"
  const NoDocument := "Expected at least one YAML document"
  const RootNotDictionary := "Document root must be a dictionary"

  /** `parse_string`: the text of a string node, or an error naming the key. */
  function ParseString(y: Yaml, keyName: string): (r: Result<string, string>)
    ensures r.Success? <==> y.String?
    ensures r.Success? ==> r.value == y.text
    ensures r.Failure? ==> r.error == "Unexpected value for '" + keyName + "'. Expected a string, but got " + DebugText(y)
  {
    match y
    case String(x) => Success(x)
    case _ => Failure("Unexpected value for '" + keyName + "'. Expected a string, but got " + DebugText(y))
  }

  // ---------------------------------------------------------------------
  // One sync entry
  // ---------------------------------------------------------------------

  const SyncKeys: set<string> := {"src", "dest", "filters",
    "dest_file_newer_behaviour", "dest_file_older_behaviour", "files_same_time_behaviour",
    "dest_entry_needs_deleting_behaviour", "dest_root_needs_deleting_behaviour"}

  /** The elements of a `filters` array appended, in order, to `acc`; the
      first element that is not a string is an error. */
  function FiltersFrom(acc: seq<string>, items: seq<Yaml>): (r: Result<seq<string>, string>)
    ensures r.Success? <==> forall i :: 0 <= i < |items| ==> items[i].String?
    decreases |items|
  {
    if items == [] then Success(acc)
    else if !items[0].String? then
      Failure("Unexpected value in 'filters' array. Expected string, but got " + DebugText(items[0]))
    else
      var r := FiltersFrom(acc + [items[0].text], items[1..]);
      assert forall i :: 1 <= i < |items| ==> items[i] == items[1..][i - 1];
      r
  }

  /** A failing `filters` array names its first element that is not a
      string. */
  lemma {:induction false} FiltersFromFirstError(acc: seq<string>, items: seq<Yaml>, j: nat)
    requires j < |items| && !items[j].String?
    requires forall i :: 0 <= i < j ==> items[i].String?
    ensures FiltersFrom(acc, items) ==
              Failure("Unexpected value in 'filters' array. Expected string, but got " + DebugText(items[j]))
    decreases j
  {
    if j > 0 {
      assert items[1..][j - 1] == items[j];
      FiltersFromFirstError(acc + [items[0].text], items[1..], j - 1);
    }
  }

  /** A successful `filters` array keeps the filters already there and adds
      the text of each element after them, in order. */
  lemma {:induction false} FiltersFromContents(acc: seq<string>, items: seq<Yaml>)
    requires FiltersFrom(acc, items).Success?
    decreases |items|
    ensures var fs := FiltersFrom(acc, items).value;
      && |fs| == |acc| + |items| && fs[..|acc|] == acc
      && forall i :: 0 <= i < |items| ==> fs[|acc| + i] == items[i].text
  {
    if items != [] {
      var acc' := acc + [items[0].text];
      FiltersFromContents(acc', items[1..]);
      var fs := FiltersFrom(acc, items).value;
      assert fs == FiltersFrom(acc', items[1..]).value;
      assert fs[..|acc|] == fs[..|acc'|][..|acc|];
      forall i | 0 <= i < |items| ensures fs[|acc| + i] == items[i].text {
        if i > 0 {
          assert fs[|acc'| + (i - 1)] == items[1..][i - 1].text;
        } else {
          assert fs[..|acc'|][|acc|] == acc'[|acc|];
        }
      }
    }
  }

  /** A behaviour value: a string naming one of `variants`, in any case. */
  function ParseBehaviour<T>(value: Yaml, keyName: string, variants: seq<(string, T)>): (r: Result<T, string>)
    ensures r.Success? ==> value.String? && r == FromName(value.text, variants)
    ensures value.String? ==> r == FromName(value.text, variants)
    ensures !value.String? ==>
              r == Failure("Unexpected value for '" + keyName + "'. Expected a string, but got " + DebugText(value))
  {
    var t :- ParseString(value, keyName);
    FromName(t, variants)
  }

  /** True for the keys a sync dictionary may hold. */
  predicate IsSyncKey(key: Yaml) {
    key.String? && key.text in SyncKeys
  }

  /** `a` and `b` hold the same value in the field that the key `name` sets
      (any other name sets no field). */
  predicate SameSyncField(a: SyncSpec, b: SyncSpec, name: string) {
    if name == "src" then a.src == b.src
    else if name == "dest" then a.dest == b.dest
    else if name == "filters" then a.filters == b.filters
    else if name == "dest_file_newer_behaviour" then a.destFileNewerBehaviour == b.destFileNewerBehaviour
    else if name == "dest_file_older_behaviour" then a.destFileOlderBehaviour == b.destFileOlderBehaviour
    else if name == "files_same_time_behaviour" then a.filesSameTimeBehaviour == b.filesSameTimeBehaviour
    else if name == "dest_entry_needs_deleting_behaviour" then a.destEntryNeedsDeletingBehaviour == b.destEntryNeedsDeletingBehaviour
    else if name == "dest_root_needs_deleting_behaviour" then a.destRootNeedsDeletingBehaviour == b.destRootNeedsDeletingBehaviour
    else true
  }

  /** The effect of one `key: value` entry of a sync dictionary: only a
      known key is accepted, and it sets only its own field. */
  function SyncEntry(acc: SyncSpec, key: Yaml, value: Yaml): (r: Result<SyncSpec, string>)
    ensures r.Success? ==> IsSyncKey(key)
    ensures !IsSyncKey(key) ==> r == Failure("Unexpected key in 'syncs' entry: " + DebugText(key))
    ensures r.Success? ==> forall name :: name != key.text ==> SameSyncField(acc, r.value, name)
  {
    if key == String("src") then
      var v :- ParseString(value, "src");
      Success(acc.(src := v))
    else if key == String("dest") then
      var v :- ParseString(value, "dest");
      Success(acc.(dest := v))
    else if key == String("filters") then
      if value.Array? then
        var fs :- FiltersFrom(acc.filters, value.items);
        Success(acc.(filters := fs))
      else
        Failure("Unexpected value for 'filters'. Expected an array, but got " + DebugText(value))
    else
      SyncBehaviourEntry(acc, key, value)
  }

  /** A `src`, `dest` or `filters` entry stores the value it carries, and a
      value of the wrong type is rejected with its own message; every other
      key is handled as a behaviour. */
  lemma SyncEntryStores(acc: SyncSpec, key: Yaml, value: Yaml)
    ensures key == String("src") && value.String? ==> SyncEntry(acc, key, value) == Success(acc.(src := value.text))
    ensures key == String("dest") && value.String? ==> SyncEntry(acc, key, value) == Success(acc.(dest := value.text))
    ensures (key == String("src") || key == String("dest")) && !value.String? ==>
              SyncEntry(acc, key, value)
              == Failure("Unexpected value for '" + key.text + "'. Expected a string, but got " + DebugText(value))
    ensures key == String("filters") && !value.Array? ==>
              SyncEntry(acc, key, value) == Failure("Unexpected value for 'filters'. Expected an array, but got " + DebugText(value))
    ensures key == String("filters") && value.Array? ==>
              SyncEntry(acc, key, value) == match FiltersFrom(acc.filters, value.items)
                   case Success(fs) => Success(acc.(filters := fs))
                   case Failure(e) => Failure(e)
    ensures !(key.String? && key.text in {"src", "dest", "filters"}) ==> SyncEntry(acc, key, value) == SyncBehaviourEntry(acc, key, value)
  {
    if key == String("filters") {
      assert key != String("src") && key != String("dest");
    } else if !(key.String? && key.text in {"src", "dest", "filters"}) {
      assert key != String("src") && key != String("dest");
    }
  }

  /** The behaviour keys of a sync dictionary, and the error for any other key. */
  function SyncBehaviourEntry(acc: SyncSpec, key: Yaml, value: Yaml): (r: Result<SyncSpec, string>)
    ensures r.Success? ==> IsSyncKey(key)
    ensures !IsSyncKey(key) ==> r == Failure("Unexpected key in 'syncs' entry: " + DebugText(key))
    ensures r.Success? ==> forall name :: name != key.text ==> SameSyncField(acc, r.value, name)
  {
    if key == String("dest_file_newer_behaviour") then
      var b :- ParseBehaviour(value, "dest_file_newer_behaviour", DestFileUpdateVariants);
      Success(acc.(destFileNewerBehaviour := b))
    else if key == String("dest_file_older_behaviour") then
      var b :- ParseBehaviour(value, "dest_file_older_behaviour", DestFileUpdateVariants);
      Success(acc.(destFileOlderBehaviour := b))
    else if key == String("files_same_time_behaviour") then
      var b :- ParseBehaviour(value, "files_same_time_behaviour", DestFileUpdateVariants);
      Success(acc.(filesSameTimeBehaviour := b))
    else if key == String("dest_entry_needs_deleting_behaviour") then
      var b :- ParseBehaviour(value, "dest_entry_needs_deleting_behaviour", DestEntryNeedsDeletingVariants);
      Success(acc.(destEntryNeedsDeletingBehaviour := b))
    else if key == String("dest_root_needs_deleting_behaviour") then
      var b :- ParseBehaviour(value, "dest_root_needs_deleting_behaviour", DestRootNeedsDeletingVariants);
      Success(acc.(destRootNeedsDeletingBehaviour := b))
    else
      Failure("Unexpected key in 'syncs' entry: " + DebugText(key))
  }

  /** A behaviour entry stores the variant its string names, matched against
      that behaviour's own table, or fails with the matching error. */
  lemma SyncBehaviourEntryStores(acc: SyncSpec, key: Yaml, value: Yaml)
    ensures key == String("dest_file_newer_behaviour") && value.String? ==>
              SyncBehaviourEntry(acc, key, value) == match FromName(value.text, DestFileUpdateVariants)
                   case Success(b) => Success(acc.(destFileNewerBehaviour := b))
                   case Failure(e) => Failure(e)
    ensures key == String("dest_file_older_behaviour") && value.String? ==>
              SyncBehaviourEntry(acc, key, value) == match FromName(value.text, DestFileUpdateVariants)
                   case Success(b) => Success(acc.(destFileOlderBehaviour := b))
                   case Failure(e) => Failure(e)
    ensures key == String("files_same_time_behaviour") && value.String? ==>
              SyncBehaviourEntry(acc, key, value) == match FromName(value.text, DestFileUpdateVariants)
                   case Success(b) => Success(acc.(filesSameTimeBehaviour := b))
                   case Failure(e) => Failure(e)
    ensures key == String("dest_entry_needs_deleting_behaviour") && value.String? ==>
              SyncBehaviourEntry(acc, key, value) == match FromName(value.text, DestEntryNeedsDeletingVariants)
                   case Success(b) => Success(acc.(destEntryNeedsDeletingBehaviour := b))
                   case Failure(e) => Failure(e)
    ensures key == String("dest_root_needs_deleting_behaviour") && value.String? ==>
              SyncBehaviourEntry(acc, key, value) == match FromName(value.text, DestRootNeedsDeletingVariants)
                   case Success(b) => Success(acc.(destRootNeedsDeletingBehaviour := b))
                   case Failure(e) => Failure(e)
    ensures IsSyncKey(key) && key.text !in {"src", "dest", "filters"} && !value.String? ==>
              SyncBehaviourEntry(acc, key, value)
              == Failure("Unexpected value for '" + key.text + "'. Expected a string, but got " + DebugText(value))
  {
  }

  /** The entries of a sync dictionary applied in order; the first error wins. */
  function SyncEntries(acc: SyncSpec, entries: seq<(Yaml, Yaml)>): (r: Result<SyncSpec, string>)
    ensures entries == [] ==> r == Success(acc)
    ensures r.Success? ==> forall i :: 0 <= i < |entries| ==> IsSyncKey(entries[i].0)
    decreases |entries|
  {
    if entries == [] then Success(acc)
    else
      var next :- SyncEntry(acc, entries[0].0, entries[0].1);
      var r := SyncEntries(next, entries[1..]);
      assert forall i :: 1 <= i < |entries| ==> entries[i] == entries[1..][i - 1];
      r
  }

  /** `parse_sync_spec`, as a function of the YAML node. */
  function SyncSpecOf(y: Yaml): (r: Result<SyncSpec, string>)
    ensures r.Success? ==> r.value.src != [] && r.value.dest != []
    ensures !y.Hash? ==> r == Failure(SyncNotDictionary)
  {
    var entries :- match AsHash(y) case None => Failure(SyncNotDictionary) case Some(e) => Success(e);
    var s :- SyncEntries(DefaultSyncSpec, entries);
    if s.src == [] then Failure(SrcMissing)
    else if s.dest == [] then Failure(DestMissing)
    else Success(s)
  }

  /** A key that is absent from a sync dictionary leaves its field as the
      starting record had it. */
  lemma {:induction false} SyncEntriesKeepAbsent(acc: SyncSpec, entries: seq<(Yaml, Yaml)>, name: string)
    requires SyncEntries(acc, entries).Success?
    requires !HasKey(entries, name)
    ensures SameSyncField(acc, SyncEntries(acc, entries).value, name)
    decreases |entries|
  {
    if entries != [] {
      var next := SyncEntry(acc, entries[0].0, entries[0].1).value;
      assert entries[0].0 != String(name);
      assert SameSyncField(acc, next, name);
      assert !HasKey(entries[1..], name) by {
        forall i | 0 <= i < |entries[1..]| ensures entries[1..][i].0 != String(name) {
          assert entries[1..][i] == entries[i + 1];
        }
      }
      SyncEntriesKeepAbsent(next, entries[1..], name);
      SameSyncFieldTransitive(acc, next, SyncEntries(next, entries[1..]).value, name);
    }
  }

  lemma SameSyncFieldTransitive(a: SyncSpec, b: SyncSpec, c: SyncSpec, name: string)
    requires SameSyncField(a, b, name) && SameSyncField(b, c, name)
    ensures SameSyncField(a, c, name)
  {
  }

  /** A sync dictionary parsed without some key keeps the `SyncSpec::default`
      value for that key's field: `dest_file_newer_behaviour` prompt,
      `dest_file_older_behaviour` overwrite, `files_same_time_behaviour`
      skip, `dest_entry_needs_deleting_behaviour` delete,
      `dest_root_needs_deleting_behaviour` prompt, and no filters. */
  lemma SyncDefaultsWhenAbsent(entries: seq<(Yaml, Yaml)>, name: string)
    requires SyncSpecOf(Hash(entries)).Success?
    requires !HasKey(entries, name)
    ensures SameSyncField(DefaultSyncSpec, SyncSpecOf(Hash(entries)).value, name)
  {
    SyncEntriesKeepAbsent(DefaultSyncSpec, entries, name);
  }

  /** Any key outside the known set makes the sync dictionary an error,
      wherever it appears. */
  lemma {:induction false} UnknownSyncKeyRejected(acc: SyncSpec, entries: seq<(Yaml, Yaml)>, i: nat)
    requires i < |entries| && !IsSyncKey(entries[i].0)
    ensures SyncEntries(acc, entries).Failure?
    decreases i
  {
    if i > 0 && SyncEntry(acc, entries[0].0, entries[0].1).Success? {
      assert entries[1..][i - 1] == entries[i];
      UnknownSyncKeyRejected(SyncEntry(acc, entries[0].0, entries[0].1).value, entries[1..], i - 1);
    }
  }

  /** Without a `src` key a sync is rejected; when nothing else is wrong the
      error is "src must be provided and non-empty", whether or not `dest`
      is present. */
  lemma MissingSrcRejected(entries: seq<(Yaml, Yaml)>)
    requires !HasKey(entries, "src")
    ensures SyncSpecOf(Hash(entries)).Failure?
    ensures SyncEntries(DefaultSyncSpec, entries).Success? ==>
      SyncSpecOf(Hash(entries)).error == SrcMissing
  {
    if SyncEntries(DefaultSyncSpec, entries).Success? {
      SyncEntriesKeepAbsent(DefaultSyncSpec, entries, "src");
    }
  }

  /** Without a `dest` key a sync is rejected; with a non-empty `src` and
      nothing else wrong the error is "dest must be provided and non-empty". */
  lemma MissingDestRejected(entries: seq<(Yaml, Yaml)>)
    requires !HasKey(entries, "dest")
    ensures SyncSpecOf(Hash(entries)).Failure?
    ensures SyncEntries(DefaultSyncSpec, entries).Success? ==>
      SyncSpecOf(Hash(entries)).error == if SyncEntries(DefaultSyncSpec, entries).value.src == [] then SrcMissing else DestMissing
  {
    if SyncEntries(DefaultSyncSpec, entries).Success? {
      SyncEntriesKeepAbsent(DefaultSyncSpec, entries, "dest");
    }
  }

  /** `parse_sync_spec`: the loop over the dictionary's entries, updating a
      default record one key at a time (the `filters` key by the inner loop
      of ParseFilters), then the two required fields. */
  method ParseSyncSpec(y: Yaml) returns (r: Result<SyncSpec, string>)
    ensures r == SyncSpecOf(y)
  {
    var result := DefaultSyncSpec;
    if !y.Hash? {
      return Failure(SyncNotDictionary);
    }
    var entries := y.entries;
    var i := 0;
    while i < |entries|
      invariant 0 <= i <= |entries|
      invariant SyncEntries(DefaultSyncSpec, entries) == SyncEntries(result, entries[i..])
    {
      assert entries[i..][1..] == entries[i + 1..];
      var (key, value) := entries[i];
      if key == String("filters") && value.Array? {
        var fs := ParseFilters(result.filters, value.items);
        match fs {
          case Failure(e) => return Failure(e);
          case Success(filters) => result := result.(filters := filters);
        }
      } else {
        match SyncEntry(result, key, value) {
          case Failure(e) => return Failure(e);
          case Success(next) => result := next;
        }
      }
      i := i + 1;
    }
    if result.src == [] {
      return Failure(SrcMissing);
    }
    if result.dest == [] {
      return Failure(DestMissing);
    }
    r := Success(result);
  }

  /** The inner loop of `parse_sync_spec`: pushing the elements of a
      `filters` array. */
  method ParseFilters(acc: seq<string>, items: seq<Yaml>) returns (r: Result<seq<string>, string>)
    ensures r == FiltersFrom(acc, items)
  {
    var filters := acc;
    var j := 0;
    while j < |items|
      invariant 0 <= j <= |items|
      invariant FiltersFrom(acc, items) == FiltersFrom(filters, items[j..])
    {
      assert items[j..][1..] == items[j + 1..];
      if !items[j].String? {
        return Failure("Unexpected value in 'filters' array. Expected string, but got " + DebugText(items[j]));
      }
      filters := filters + [items[j].text];
      j := j + 1;
    }
    r := Success(filters);
  }

  // ---------------------------------------------------------------------
  // The whole spec file
  // ---------------------------------------------------------------------

  const RootKeys: set<string> := {"src_hostname", "src_username", "dest_hostname", "dest_username",
    "deploy_behaviour", "syncs"}

  /** True for the keys the root dictionary may hold. */
  predicate IsRootKey(key: Yaml) {
    key.String? && key.text in RootKeys
  }

  /** `a` and `b` hold the same value in the field that the root key `name`
      sets (any other name sets no field). */
  predicate SameSpecField(a: Spec, b: Spec, name: string) {
    if name == "src_hostname" then a.srcHostname == b.srcHostname
    else if name == "src_username" then a.srcUsername == b.srcUsername
    else if name == "dest_hostname" then a.destHostname == b.destHostname
    else if name == "dest_username" then a.destUsername == b.destUsername
    else if name == "deploy_behaviour" then a.deployBehaviour == b.deployBehaviour
    else if name == "syncs" then a.syncs == b.syncs
    else true
  }

  /** The syncs of a `syncs` array, each parsed by `parse_sync_spec`,
      appended in order to `acc`; the first bad sync is the error. */
  function SyncsFrom(acc: seq<SyncSpec>, items: seq<Yaml>): (r: Result<seq<SyncSpec>, string>)
    ensures r.Success? <==> forall i :: 0 <= i < |items| ==> SyncSpecOf(items[i]).Success?
    decreases |items|
  {
    if items == [] then Success(acc)
    else
      var sync :- SyncSpecOf(items[0]);
      var r := SyncsFrom(acc + [sync], items[1..]);
      assert forall i :: 1 <= i < |items| ==> items[i] == items[1..][i - 1];
      r
  }

  /** A failing `syncs` array fails with the error of its first bad sync,
      whatever came before it. */
  lemma {:induction false} SyncsFromFirstError(acc: seq<SyncSpec>, items: seq<Yaml>, j: nat)
    requires j < |items| && SyncSpecOf(items[j]).Failure?
    requires forall i :: 0 <= i < j ==> SyncSpecOf(items[i]).Success?
    ensures SyncsFrom(acc, items) == Failure(SyncSpecOf(items[j]).error)
    decreases j
  {
    if j > 0 {
      var acc' := acc + [SyncSpecOf(items[0]).value];
      assert SyncsFrom(acc, items) == SyncsFrom(acc', items[1..]);
      assert items[1..][j - 1] == items[j];
      SyncsFromFirstError(acc', items[1..], j - 1);
    }
  }

  /** A successful `syncs` array starts with a sync that parses, and goes on
      from the syncs with that one appended. */
  lemma SyncsFromStep(acc: seq<SyncSpec>, items: seq<Yaml>)
    requires items != [] && SyncsFrom(acc, items).Success?
    ensures SyncSpecOf(items[0]).Success?
    ensures SyncsFrom(acc, items) == SyncsFrom(acc + [SyncSpecOf(items[0]).value], items[1..])
  {
  }

  /** A successful `syncs` array keeps the syncs already there and adds the
      parse of each element after them, in order. */
  lemma {:induction false} SyncsFromContents(acc: seq<SyncSpec>, items: seq<Yaml>)
    requires SyncsFrom(acc, items).Success?
    ensures var ss := SyncsFrom(acc, items).value;
      && |ss| == |acc| + |items| && ss[..|acc|] == acc
      && forall i :: 0 <= i < |items| ==> SyncSpecOf(items[i]) == Success(ss[|acc| + i])
    decreases |items|
  {
    if items != [] {
      SyncsFromStep(acc, items);
      var first := SyncSpecOf(items[0]);
      var acc' := acc + [first.value];
      SyncsFromContents(acc', items[1..]);
      var ss := SyncsFrom(acc, items).value;
      assert ss[..|acc|] == ss[..|acc'|][..|acc|];
      forall i | 0 <= i < |items| ensures SyncSpecOf(items[i]) == Success(ss[|acc| + i]) {
        if i > 0 {
          assert items[1..][i - 1] == items[i];
        } else {
          assert ss[..|acc'|][|acc|] == acc'[|acc|];
        }
      }
    }
  }

  /** The effect of one `key: value` entry of the root dictionary: only a
      known key is accepted, and it sets only its own field. */
  function SpecEntry(acc: Spec, key: Yaml, value: Yaml): (r: Result<Spec, string>)
    ensures r.Success? ==> IsRootKey(key)
    ensures !IsRootKey(key) ==> r == Failure("Unexpected key in root dictionary: " + DebugText(key))
    ensures r.Success? ==> forall name :: name != key.text ==> SameSpecField(acc, r.value, name)
  {
    if key == String("src_hostname") then
      var v :- ParseString(value, "src_hostname");
      Success(acc.(srcHostname := v))
    else if key == String("src_username") then
      var v :- ParseString(value, "src_username");
      Success(acc.(srcUsername := v))
    else if key == String("dest_hostname") then
      var v :- ParseString(value, "dest_hostname");
      Success(acc.(destHostname := v))
    else if key == String("dest_username") then
      var v :- ParseString(value, "dest_username");
      Success(acc.(destUsername := v))
    else if key == String("deploy_behaviour") then
      var b :- ParseBehaviour(value, "deploy_behaviour", DeployVariants);
      Success(acc.(deployBehaviour := b))
    else if key == String("syncs") then
      if value.Array? then
        var ss :- SyncsFrom(acc.syncs, value.items);
        Success(acc.(syncs := ss))
      else
        Failure("Unexpected value for 'syncs'. Expected an array, but got " + DebugText(value))
    else
      Failure("Unexpected key in root dictionary: " + DebugText(key))
  }

  /** Each root key stores the value it carries: the strings as they are, the
      deploy behaviour as the variant it names, the syncs as parsed by
      `parse_sync_spec`; a value of the wrong type is rejected. */
  lemma SpecEntryStores(acc: Spec, key: Yaml, value: Yaml)
    ensures key == String("src_hostname") && value.String? ==> SpecEntry(acc, key, value) == Success(acc.(srcHostname := value.text))
    ensures key == String("src_username") && value.String? ==> SpecEntry(acc, key, value) == Success(acc.(srcUsername := value.text))
    ensures key == String("dest_hostname") && value.String? ==> SpecEntry(acc, key, value) == Success(acc.(destHostname := value.text))
    ensures key == String("dest_username") && value.String? ==> SpecEntry(acc, key, value) == Success(acc.(destUsername := value.text))
    ensures key == String("deploy_behaviour") && value.String? ==>
              SpecEntry(acc, key, value) == match FromName(value.text, DeployVariants)
                   case Success(b) => Success(acc.(deployBehaviour := b))
                   case Failure(e) => Failure(e)
    ensures key == String("syncs") && value.Array? ==>
              SpecEntry(acc, key, value) == match SyncsFrom(acc.syncs, value.items)
                   case Success(ss) => Success(acc.(syncs := ss))
                   case Failure(e) => Failure(e)
  {
    if key == String("src_hostname") {
    } else if key == String("src_username") {
    } else if key == String("dest_hostname") {
    } else if key == String("dest_username") {
    } else if key == String("deploy_behaviour") {
    } else if key == String("syncs") {
    }
  }

  /** A root key given a value of the wrong type is rejected with a message
      that names the key. */
  lemma SpecEntryRejectsWrongType(acc: Spec, key: Yaml, value: Yaml)
    ensures IsRootKey(key) && key.text != "syncs" && !value.String? ==>
              SpecEntry(acc, key, value)
              == Failure("Unexpected value for '" + key.text + "'. Expected a string, but got " + DebugText(value))
    ensures key == String("syncs") && !value.Array? ==>
              SpecEntry(acc, key, value)
              == Failure("Unexpected value for 'syncs'. Expected an array, but got " + DebugText(value))
  {
    if key == String("syncs") {
      assert key.text == "syncs";
    } else if key == String("src_hostname") {
    } else if key == String("src_username") {
    } else if key == String("dest_hostname") {
    } else if key == String("dest_username") {
    } else if key == String("deploy_behaviour") {
    }
  }

  /** The entries of the root dictionary applied in order; the first error wins. */
  function SpecEntries(acc: Spec, entries: seq<(Yaml, Yaml)>): (r: Result<Spec, string>)
    ensures entries == [] ==> r == Success(acc)
    ensures r.Success? ==> forall i :: 0 <= i < |entries| ==> IsRootKey(entries[i].0)
    decreases |entries|
  {
    if entries == [] then Success(acc)
    else
      var next :- SpecEntry(acc, entries[0].0, entries[0].1);
      var r := SpecEntries(next, entries[1..]);
      assert forall i :: 1 <= i < |entries| ==> entries[i] == entries[1..][i - 1];
      r
  }

  /** `parse_spec_file` from the loaded documents on: `loaded` is the outcome
      of reading the file and loading its YAML (an error there is passed on
      as it is). Only the first document is used. */
  function SpecFileOf(loaded: Result<seq<Yaml>, string>): (r: Result<Spec, string>)
    ensures loaded.Failure? ==> r == Failure(loaded.error)
    ensures loaded == Success([]) ==> r == Failure(NoDocument)
    ensures loaded.Success? && loaded.value != [] && !loaded.value[0].Hash? ==> r == Failure(RootNotDictionary)
  {
    var docs :- loaded;
    if |docs| < 1 then Failure(NoDocument)
    else
      var entries :- match AsHash(docs[0]) case None => Failure(RootNotDictionary) case Some(e) => Success(e);
      SpecEntries(DefaultSpec, entries)
  }

  /** Documents after the first never change the outcome. */
  lemma LaterDocumentsIgnored(first: Yaml, rest: seq<Yaml>)
    ensures SpecFileOf(Success([first] + rest)) == SpecFileOf(Success([first]))
  {
    assert ([first] + rest)[0] == [first][0];
  }

  /** A root key that is absent leaves its field as the starting record had it. */
  lemma {:induction false} SpecEntriesKeepAbsent(acc: Spec, entries: seq<(Yaml, Yaml)>, name: string)
    requires SpecEntries(acc, entries).Success?
    requires !HasKey(entries, name)
    ensures SameSpecField(acc, SpecEntries(acc, entries).value, name)
    decreases |entries|
  {
    if entries != [] {
      var next := SpecEntry(acc, entries[0].0, entries[0].1).value;
      assert entries[0].0 != String(name);
      assert SameSpecField(acc, next, name);
      assert !HasKey(entries[1..], name) by {
        forall i | 0 <= i < |entries[1..]| ensures entries[1..][i].0 != String(name) {
          assert entries[1..][i] == entries[i + 1];
        }
      }
      SpecEntriesKeepAbsent(next, entries[1..], name);
      SameSpecFieldTransitive(acc, next, SpecEntries(next, entries[1..]).value, name);
    }
  }

  lemma SameSpecFieldTransitive(a: Spec, b: Spec, c: Spec, name: string)
    requires SameSpecField(a, b, name) && SameSpecField(b, c, name)
    ensures SameSpecField(a, c, name)
  {
  }

  /** A spec file parsed without some root key keeps the `Spec::default`
      value for it: empty host and user names, deploy behaviour prompt, no
      syncs. */
  lemma SpecDefaultsWhenAbsent(doc: Yaml, name: string)
    requires doc.Hash? && SpecFileOf(Success([doc])).Success?
    requires !HasKey(doc.entries, name)
    ensures SameSpecField(DefaultSpec, SpecFileOf(Success([doc])).value, name)
  {
    SpecEntriesKeepAbsent(DefaultSpec, doc.entries, name);
  }

  /** Any key outside the known set makes the root dictionary an error,
      wherever it appears. */
  lemma {:induction false} UnknownRootKeyRejected(acc: Spec, entries: seq<(Yaml, Yaml)>, i: nat)
    requires i < |entries| && !IsRootKey(entries[i].0)
    ensures SpecEntries(acc, entries).Failure?
    decreases i
  {
    if i > 0 && SpecEntry(acc, entries[0].0, entries[0].1).Success? {
      assert entries[1..][i - 1] == entries[i];
      UnknownRootKeyRejected(SpecEntry(acc, entries[0].0, entries[0].1).value, entries[1..], i - 1);
    }
  }

  /** The loop over a `syncs` array in `parse_spec_file`, pushing each
      parsed sync. */
  method ParseSyncs(acc: seq<SyncSpec>, items: seq<Yaml>) returns (r: Result<seq<SyncSpec>, string>)
    ensures r == SyncsFrom(acc, items)
  {
    var syncs := acc;
    var j := 0;
    while j < |items|
      invariant 0 <= j <= |items|
      invariant SyncsFrom(acc, items) == SyncsFrom(syncs, items[j..])
    {
      assert items[j..][1..] == items[j + 1..];
      var sync := ParseSyncSpec(items[j]);
      match sync {
        case Failure(e) => return Failure(e);
        case Success(v) => syncs := syncs + [v];
      }
      j := j + 1;
    }
    r := Success(syncs);
  }

  /** `parse_spec_file` from the loaded documents on: the loop over the root
      dictionary, updating a default record one key at a time (the `syncs`
      key by the loop of ParseSyncs). */
  method ParseSpecFile(loaded: Result<seq<Yaml>, string>) returns (r: Result<Spec, string>)
    ensures r == SpecFileOf(loaded)
  {
    var result := DefaultSpec;
    if loaded.Failure? {
      return Failure(loaded.error);
    }
    var docs := loaded.value;
    if |docs| < 1 {
      return Failure(NoDocument);
    }
    var doc := docs[0];
    if !doc.Hash? {
      return Failure(RootNotDictionary);
    }
    var entries := doc.entries;
    var i := 0;
    while i < |entries|
      invariant 0 <= i <= |entries|
      invariant SpecEntries(DefaultSpec, entries) == SpecEntries(result, entries[i..])
    {
      assert entries[i..][1..] == entries[i + 1..];
      var (key, value) := entries[i];
      if key == String("syncs") && value.Array? {
        var ss := ParseSyncs(result.syncs, value.items);
        match ss {
          case Failure(e) => return Failure(e);
          case Success(syncs) => result := result.(syncs := syncs);
        }
      } else {
        match SpecEntry(result, key, value) {
          case Failure(e) => return Failure(e);
          case Success(next) => result := next;
        }
      }
      i := i + 1;
    }
    r := Success(result);
  }
}
