/** A run in which a failed double-compare-single-swap reports the value it had expected. */
module DcssWitness {
  import opened Wrappers
  import opened DcssModel
  import opened DcssProof

  const WANT := Body(0, 0, 1, 0, 1)
  const TAG := Tag(0, 3)
  const REST := Desc(1, Undecided, Body(0, 0, 0, 0, 0))

  /** Two words and two threads; the second descriptor is never used. */
  function Two(x: nat, y: Word, d: Desc, ops: map<Tag, Op>, owner: Thread, helper: Thread): State {
    State(Shared([Val(x), y], [d, REST], ops), [owner, helper])
  }

  function Noted(status: Status, installed: bool, matched: bool, mismatched: bool): map<Tag, Op> {
    map[TAG := Op(WANT, status, installed, matched, mismatched)]
  }

  const RESTING := Thread(Idle, Free)

  function Reading(pc: Pc): Thread { Thread(pc, ReadAddr1(TAG, 3, WANT)) }

  /** The tag is in memory; the first word is x and the helper does not know the operation or knows it in part. */
  function Installed(sl: Slot): State {
    Two(5, DcssTag(TAG), Desc(3, Undecided, WANT), Noted(Undecided, true, false, false), Reading(OwnHelp), Thread(Read(1), sl))
  }

  lemma Extend(run: seq<State>, s': State)
    requires Run(run) && Next(run[|run| - 1], s')
    ensures Run(run + [s']) && (run + [s'])[|run|] == s'
  {
    var more := run + [s'];
    forall n | 0 <= n < |more| - 1 ensures Next(more[n], more[n + 1]) {
      if n < |run| - 1 { assert Next(run[n], run[n + 1]); }
    }
  }

  lemma ExtendBy(run: seq<State>, s': State, t: nat) returns (more: seq<State>)
    requires Run(run) && StepOf(run[|run| - 1], s', t)
    ensures Run(more) && more[|more| - 1] == s'
  {
    more := run + [s'];
    Extend(run, s');
  }

  /** The owner creates, fills and publishes its descriptor. */
  lemma Published() returns (run: seq<State>)
    ensures Run(run)
    ensures run[|run| - 1] == Two(5, Val(0), Desc(3, Undecided, WANT), Noted(Undecided, false, false, false), Thread(TryCas, Free), RESTING)
  {
    var fill := Thread(Fill(WANT), Free);
    run := [Two(5, Val(0), REST, map[], RESTING, RESTING)];
    run := ExtendBy(run, Two(5, Val(0), Desc(2, Undecided, REST.body), map[], fill, RESTING), 0);
    run := ExtendBy(run, Two(5, Val(0), Desc(2, Undecided, Body(0, 0, 1, 0, 0)), map[], fill, RESTING), 0);
    run := ExtendBy(run, Two(5, Val(0), Desc(2, Undecided, WANT), map[], fill, RESTING), 0);
    run := ExtendBy(run, Two(5, Val(0), Desc(3, Undecided, WANT), Noted(Undecided, false, false, false), Thread(TryCas, Free), RESTING), 0);
  }

  /** It installs its tag, and the other thread meets the tag. */
  lemma Met() returns (run: seq<State>)
    ensures Run(run) && run[|run| - 1] == Installed(Copy(TAG, EMPTY_SNAP))
  {
    run := Published();
    run := ExtendBy(run, Two(5, Val(0), Desc(3, Undecided, WANT), Noted(Undecided, false, false, false),
                             Thread(TryCas, Free), Thread(Read(1), Free)), 1);
    run := ExtendBy(run, Installed(Free), 0);
    var s, s' := run[|run| - 1], Installed(Copy(TAG, EMPTY_SNAP));
    assert Load(s.g, s.th[1], s'.g, s'.th[1]);
    run := ExtendBy(run, s', 1);
  }

  /** One more word of the snapshot. */
  lemma CopyMore(run: seq<State>, sn: Snap, sn': Snap) returns (more: seq<State>)
    requires Run(run) && run[|run| - 1] == Installed(Copy(TAG, sn))
    requires sn' in {sn.(seqno := Some(3)), sn.(addr1 := Some(0)), sn.(old1 := Some(0)),
                     sn.(addr2 := Some(1)), sn.(old2 := Some(0)), sn.(new2 := Some(1))}
    ensures Run(more) && more[|more| - 1] == Installed(Copy(TAG, sn'))
  {
    var s, s' := Installed(Copy(TAG, sn)), Installed(Copy(TAG, sn'));
    assert CopyWord(s.g, s.th[1], s'.g, s'.th[1]);
    more := ExtendBy(run, s', 1);
  }

  lemma Copied() returns (run: seq<State>)
    ensures Run(run) && run[|run| - 1] == Installed(ReadAddr1(TAG, 3, WANT))
  {
    run := Met();
    run := CopyMore(run, EMPTY_SNAP, Snap(Some(3), None, None, None, None, None));
    run := CopyMore(run, Snap(Some(3), None, None, None, None, None), Snap(Some(3), Some(0), None, None, None, None));
    run := CopyMore(run, Snap(Some(3), Some(0), None, None, None, None), Snap(Some(3), Some(0), Some(0), None, None, None));
    run := CopyMore(run, Snap(Some(3), Some(0), Some(0), None, None, None), Snap(Some(3), Some(0), Some(0), Some(1), None, None));
    run := CopyMore(run, Snap(Some(3), Some(0), Some(0), Some(1), None, None), Snap(Some(3), Some(0), Some(0), Some(1), Some(0), None));
    var sn := Snap(Some(3), Some(0), Some(0), Some(1), Some(0), Some(1));
    run := CopyMore(run, Snap(Some(3), Some(0), Some(0), Some(1), Some(0), None), sn);
    var s, s' := Installed(Copy(TAG, sn)), Installed(ReadAddr1(TAG, 3, WANT));
    assert Validate(s.g, s.th[1], s'.g, s'.th[1]);
    run := ExtendBy(run, s', 1);
  }

  /** The other thread reads 5 at the first address and decides for failure. */
  lemma Decided() returns (run: seq<State>)
    ensures Run(run)
    ensures run[|run| - 1] == Two(5, DcssTag(TAG), Desc(3, Failed, WANT), Noted(Failed, true, false, true), Reading(OwnHelp),
                                  Thread(Read(1), Finish(TAG, WANT, Val(5), false)))
  {
    run := Copied();
    var d, ops := Desc(3, Undecided, WANT), Noted(Undecided, true, false, true);
    var tag, owner := DcssTag(TAG), Reading(OwnHelp);
    run := ExtendBy(run, Two(5, tag, d, ops, owner, Thread(Read(1), ReadMut(TAG, 3, WANT, Val(5)))), 1);
    run := ExtendBy(run, Two(5, tag, d, ops, owner, Thread(Read(1), CasMut(TAG, 3, WANT, Val(5)))), 1);
    run := ExtendBy(run, Two(5, tag, d.(state := Failed), Noted(Failed, true, false, true), owner,
                             Thread(Read(1), Finish(TAG, WANT, Val(5), false))), 1);
  }

  /** The program stores the expected value at the first address, and that is what the owner reads and reports. */
  lemma ReportsExpected() returns (run: seq<State>)
    ensures Run(run)
    ensures var s := run[|run| - 1];
            Returns(s, 0, TAG, FailedAddr1(Val(0))) && TAG in s.g.ops && s.g.ops[TAG].body.old1 == 0
  {
    run := Decided();
    var d, tag, helper := Desc(3, Failed, WANT), DcssTag(TAG), Thread(Read(1), Finish(TAG, WANT, Val(5), false));
    var s := Two(0, tag, d, Noted(Failed, true, false, true), Reading(OwnHelp), helper);
    assert Store(run[|run| - 1].g, 0, s.g);
    Extend(run, s);
    run := run + [s];
    var ops := Noted(Failed, true, true, true);
    run := ExtendBy(run, Two(0, tag, d, ops, Thread(OwnHelp, ReadMut(TAG, 3, WANT, Val(0))), helper), 0);
    run := ExtendBy(run, Two(0, tag, d, ops, Thread(OwnHelp, CasMut(TAG, 3, WANT, Val(0))), helper), 0);
    run := ExtendBy(run, Two(0, tag, d, ops, Thread(OwnHelp, Finish(TAG, WANT, Val(0), false)), helper), 0);
    run := ExtendBy(run, Two(0, Val(0), d, ops, Thread(Done(FailedAddr1(Val(0))), Free), helper), 0);
  }
}
