/** The fetch filter of the pairwise experiment combiner
    (`rename_algorithm`): runs of the four lazy-GBFS configurations of the
    older experiment are renamed with an `old-` prefix, in both the
    algorithm attribute and the first component of the run id. */
module CombinerPair {
  import opened Wrappers

  /** The attributes of one fetched run that the filter touches; `other`
      stands for every remaining attribute. */
  datatype Run = Run(algorithm: string, id: seq<string>, other: map<string, string>)

  /** The configurations the filter renames, in the order it tests them. */
  const OldConfigs: seq<string> := ["gbfs-lazy-ff-1", "gbfs-lazy-ff-2", "gbfs-lazy-ff-4", "gbfs-lazy-ff-8"]

  const OldPrefix := "old-"

  /** Sets the algorithm and the first id component to `name`; an empty id
      list has no first component to assign (`IndexError`). */
  function SetName(run: Run, name: string): Result<Run> {
    if |run.id| == 0 then Failure("IndexError: list assignment index out of range")
    else Success(run.(algorithm := name, id := run.id[0 := name]))
  }

  /** `rename_algorithm`, one branch per configuration as in the filter. */
  function RenameAlgorithm(run: Run): Result<Run> {
    if run.algorithm == "gbfs-lazy-ff-1" then SetName(run, "old-gbfs-lazy-ff-1")
    else if run.algorithm == "gbfs-lazy-ff-2" then SetName(run, "old-gbfs-lazy-ff-2")
    else if run.algorithm == "gbfs-lazy-ff-4" then SetName(run, "old-gbfs-lazy-ff-4")
    else if run.algorithm == "gbfs-lazy-ff-8" then SetName(run, "old-gbfs-lazy-ff-8")
    else Success(run)
  }

  /** The four branches are exactly the four configurations. */
  lemma OldConfigsListed(a: string)
    ensures a in OldConfigs <==>
              a == "gbfs-lazy-ff-1" || a == "gbfs-lazy-ff-2" || a == "gbfs-lazy-ff-4" || a == "gbfs-lazy-ff-8"
  {
  }

  /** Setting a name that is `old-` + the algorithm: it fails exactly on
      an empty id list, and otherwise changes only the algorithm and the
      first id component. */
  lemma SetOldName(run: Run, name: string)
    requires name == OldPrefix + run.algorithm
    ensures SetName(run, name).Failure? <==> |run.id| == 0
    ensures SetName(run, name).Success? ==>
      SetName(run, name).value.algorithm == OldPrefix + run.algorithm && |SetName(run, name).value.id| == |run.id|
      && SetName(run, name).value.id[0] == SetName(run, name).value.algorithm
      && SetName(run, name).value.id[1..] == run.id[1..]
      && SetName(run, name).value.other == run.other
  {
  }

  /** Runs of the four older configurations get the `old-` prefix in both
      places and fail only without an id; every other run passes through
      unchanged. */
  lemma RenameAlgorithmRenames(run: Run)
    ensures run.algorithm !in OldConfigs ==> RenameAlgorithm(run) == Success(run)
    ensures run.algorithm in OldConfigs ==> (RenameAlgorithm(run).Failure? <==> |run.id| == 0)
    ensures run.algorithm in OldConfigs && RenameAlgorithm(run).Success? ==>
      RenameAlgorithm(run).value.algorithm == OldPrefix + run.algorithm && |RenameAlgorithm(run).value.id| == |run.id|
      && RenameAlgorithm(run).value.id[0] == RenameAlgorithm(run).value.algorithm
      && RenameAlgorithm(run).value.id[1..] == run.id[1..]
      && RenameAlgorithm(run).value.other == run.other
  {
    OldConfigsListed(run.algorithm);
    PrefixedLiterals();
    if run.algorithm in OldConfigs {
      SetOldName(run, OldPrefix + run.algorithm);
    }
  }

  /** The literal each branch assigns is `old-` + the literal it tests. */
  lemma PrefixedLiterals()
    ensures "old-gbfs-lazy-ff-1" == OldPrefix + "gbfs-lazy-ff-1"
    ensures "old-gbfs-lazy-ff-2" == OldPrefix + "gbfs-lazy-ff-2"
    ensures "old-gbfs-lazy-ff-4" == OldPrefix + "gbfs-lazy-ff-4"
    ensures "old-gbfs-lazy-ff-8" == OldPrefix + "gbfs-lazy-ff-8"
  {
  }

  /** A renamed configuration is not one the filter renames. */
  lemma OldNamesNotRenamed(a: string)
    requires a in OldConfigs
    ensures OldPrefix + a !in OldConfigs
  {
    assert (OldPrefix + a)[0] == 'o';
  }

  /** Filtering a filtered run changes nothing more: the filter is
      idempotent. */
  lemma RenameIdempotent(run: Run)
    requires RenameAlgorithm(run).Success?
    ensures RenameAlgorithm(RenameAlgorithm(run).value) == RenameAlgorithm(run)
  {
    RenameAlgorithmRenames(run);
    if run.algorithm in OldConfigs {
      OldNamesNotRenamed(run.algorithm);
      RenameAlgorithmRenames(RenameAlgorithm(run).value);
    }
  }

  /** Two runs of different algorithms that are both renamed, or both
      left alone, keep different algorithm names. */
  lemma RenameInjective(a: Run, b: Run)
    requires RenameAlgorithm(a).Success? && RenameAlgorithm(b).Success?
    requires a.algorithm != b.algorithm
    requires a.algorithm in OldConfigs <==> b.algorithm in OldConfigs
    ensures RenameAlgorithm(a).value.algorithm != RenameAlgorithm(b).value.algorithm
  {
    RenameAlgorithmRenames(a);
    RenameAlgorithmRenames(b);
    if a.algorithm in OldConfigs {
      assert (OldPrefix + a.algorithm)[|OldPrefix|..] == a.algorithm;
      assert (OldPrefix + b.algorithm)[|OldPrefix|..] == b.algorithm;
    }
  }
}
