/**
 * The direction tracker of `runGame`: a set of key names that a keydown
 * handler rewrites and that every tick reads.
 */
module Input {
  import opened Wrappers

  const ArrowUp: string := "ArrowUp"
  const ArrowRight: string := "ArrowRight"
  const ArrowDown: string := "ArrowDown"
  const ArrowLeft: string := "ArrowLeft"

  /** The keys handed to `trackKeys`, in the order the game lists them. */
  const TrackedKeys: seq<string> := [ArrowLeft, ArrowUp, ArrowDown, ArrowRight]

  /** The set a fresh tracker starts with. */
  const InitialDirection: set<string> := {ArrowRight}

  /** The set holds exactly one tracked key. */
  predicate OneArrow(dir: set<string>) {
    exists k :: k in TrackedKeys && dir == {k}
  }

  /** The `track` handler: a tracked key clears the set and is added; any other key is ignored. */
  function Track(dir: set<string>, key: string): (d: set<string>)
    ensures key in TrackedKeys ==> d == {key} && OneArrow(d)
    ensures key !in TrackedKeys ==> d == dir
  {
    if key in TrackedKeys then {key} else dir
  }

  /** The tracker after a run of keydown events, oldest first. */
  function TrackAll(dir: set<string>, keys: seq<string>): set<string>
    decreases |keys|
  {
    if keys == [] then dir else TrackAll(Track(dir, keys[0]), keys[1..])
  }

  /** The most recent tracked key among `keys`, if any. */
  function LastTracked(keys: seq<string>): (r: Option<string>)
    ensures r.Some? ==> r.value in TrackedKeys && r.value in keys
    ensures r.None? ==> forall i :: 0 <= i < |keys| ==> keys[i] !in TrackedKeys
    decreases |keys|
  {
    if keys == [] then None
    else if keys[|keys| - 1] in TrackedKeys then Some(keys[|keys| - 1])
    else LastTracked(keys[..|keys| - 1])
  }

  lemma InitialIsOneArrow()
    ensures OneArrow(InitialDirection) && InitialDirection == {ArrowRight}
  {
    assert ArrowRight in TrackedKeys;
  }

  /** Every keydown keeps exactly one tracked key in the set. */
  lemma TrackKeepsOneArrow(dir: set<string>, key: string)
    requires OneArrow(dir)
    ensures OneArrow(Track(dir, key))
  {
  }

  /** Pressing keys one after another: TrackAll on a sequence extended by one key. */
  lemma {:induction false} TrackAllSnoc(dir: set<string>, keys: seq<string>, key: string)
    ensures TrackAll(dir, keys + [key]) == Track(TrackAll(dir, keys), key)
    decreases |keys|
  {
    if keys == [] {
      assert keys + [key] == [key];
    } else {
      assert (keys + [key])[1..] == keys[1..] + [key];
      TrackAllSnoc(Track(dir, keys[0]), keys[1..], key);
    }
  }

  /**
   * Last writer wins: after any run of keydown events the set holds only the
   * most recent tracked key, or is unchanged when no key was tracked.
   */
  lemma {:induction false} LastWriterWins(dir: set<string>, keys: seq<string>)
    ensures LastTracked(keys).Some? ==> TrackAll(dir, keys) == {LastTracked(keys).value}
    ensures LastTracked(keys).None? ==> TrackAll(dir, keys) == dir
    decreases |keys|
  {
    if keys != [] {
      var init := keys[..|keys| - 1];
      assert keys == init + [keys[|keys| - 1]];
      TrackAllSnoc(dir, init, keys[|keys| - 1]);
      LastWriterWins(dir, init);
    }
  }

  /** Pressing ArrowDown then ArrowLeft before a tick leaves only ArrowLeft. */
  lemma DownThenLeft(dir: set<string>)
    ensures TrackAll(dir, [ArrowDown, ArrowLeft]) == {ArrowLeft}
  {
    LastWriterWins(dir, [ArrowDown, ArrowLeft]);
  }
}
