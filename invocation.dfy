/**
 * The child command line built by `testVerifyFlags`: the inherited options,
 * then a fixed heap configuration, the diagnostic unlock switch, the two
 * verify switches rendered from the flags, and the workload class name.
 */
module Invocation {
  import opened Wrappers
  import Markers

  const MaxHeap := "-Xmx5m"
  const InitialHeap := "-Xms5m"
  const YoungGen := "-Xmn3m"
  const UnlockDiagnostic := "-XX:+UnlockDiagnosticVMOptions"
  /** The verify flags are named like the log markers they switch on. */
  const VerifyBeforeGC := Markers.MarkerName(Markers.BeforeGC)
  const VerifyAfterGC := Markers.MarkerName(Markers.AfterGC)
  /** The binary name of the nested workload class: outer class, `$`, nested class. */
  const WorkloadClass := "TestVerifyBeforeAndAfterGCFlags" + "$GarbageProducer"

  /** A boolean `-XX` option: `-XX:+Name` when enabled, `-XX:-Name` otherwise. */
  function Switch(flag: string, enabled: bool): string
  {
    "-XX:" + (if enabled then "+" else "-") + flag
  }

  /** The inherited options that reach the child: a null array contributes nothing. */
  function Inherited(opts: Option<seq<string>>): seq<string>
  {
    match opts
    case None => []
    case Some(o) => o
  }

  /** The entries appended after the inherited options, in their fixed order. */
  function FixedTail(verifyBeforeGC: bool, verifyAfterGC: bool): seq<string>
  {
    [MaxHeap, InitialHeap, YoungGen, UnlockDiagnostic,
     Switch(VerifyBeforeGC, verifyBeforeGC), Switch(VerifyAfterGC, verifyAfterGC),
     WorkloadClass]
  }

  /** The complete argument list handed to the process builder. */
  function ArgumentList(verifyBeforeGC: bool, verifyAfterGC: bool, opts: Option<seq<string>>): seq<string>
  {
    Inherited(opts) + FixedTail(verifyBeforeGC, verifyAfterGC)
  }

  /**
   * Builds `vmOpts` the way the driver does: start from an empty list, add
   * the options when they are non-null and non-empty, then add the seven
   * fixed entries.
   */
  method BuildVmOpts(verifyBeforeGC: bool, verifyAfterGC: bool, opts: Option<seq<string>>)
    returns (vmOpts: seq<string>)
    ensures vmOpts == ArgumentList(verifyBeforeGC, verifyAfterGC, opts)
    ensures |vmOpts| == |Inherited(opts)| + 7
    ensures vmOpts[..|Inherited(opts)|] == Inherited(opts)
    ensures vmOpts[|Inherited(opts)|..] ==
      ["-Xmx5m", "-Xms5m", "-Xmn3m", "-XX:+UnlockDiagnosticVMOptions",
       if verifyBeforeGC then "-XX:+VerifyBeforeGC" else "-XX:-VerifyBeforeGC",
       if verifyAfterGC then "-XX:+VerifyAfterGC" else "-XX:-VerifyAfterGC",
       WorkloadClass]
  {
    vmOpts := [];
    if opts.Some? && |opts.value| > 0 {
      vmOpts := vmOpts + opts.value;
    }
    assert vmOpts == Inherited(opts);
    SwitchRendering(verifyBeforeGC, verifyAfterGC);
    vmOpts := vmOpts + [MaxHeap, InitialHeap, YoungGen, UnlockDiagnostic,
                        if verifyBeforeGC then "-XX:+VerifyBeforeGC" else "-XX:-VerifyBeforeGC",
                        if verifyAfterGC then "-XX:+VerifyAfterGC" else "-XX:-VerifyAfterGC",
                        WorkloadClass];
  }

  /** No entry after index `i` is a switch for `flag`. */
  predicate LastSwitchAt(args: seq<string>, flag: string, i: nat)
  {
    forall j :: i < j < |args| ==> args[j] != Switch(flag, true) && args[j] != Switch(flag, false)
  }

  /**
   * The value a command line gives a boolean `-XX` flag: the last entry that
   * is `-XX:+flag` or `-XX:-flag` decides, and `None` when there is none.
   */
  function EffectiveSwitch(args: seq<string>, flag: string): (r: Option<bool>)
    ensures r == Some(true) ==> Switch(flag, true) in args
    ensures r == Some(false) ==> Switch(flag, false) in args
    ensures r == None ==> Switch(flag, true) !in args && Switch(flag, false) !in args
  {
    if args == [] then None
    else
      var last := args[|args| - 1];
      assert args == args[..|args| - 1] + [last];
      if last == Switch(flag, true) then Some(true)
      else if last == Switch(flag, false) then Some(false)
      else EffectiveSwitch(args[..|args| - 1], flag)
  }

  /** The value decoded for `flag` is that of the last switch for `flag` in the list. */
  lemma {:induction false} EffectiveSwitchIsLast(args: seq<string>, flag: string)
    ensures EffectiveSwitch(args, flag).Some? ==>
      exists i :: 0 <= i < |args| && args[i] == Switch(flag, EffectiveSwitch(args, flag).value) && LastSwitchAt(args, flag, i)
    decreases |args|
  {
    if args != [] {
      var n := |args| - 1;
      var prefix := args[..n];
      if args[n] == Switch(flag, true) || args[n] == Switch(flag, false) {
        assert LastSwitchAt(args, flag, n);
      } else if EffectiveSwitch(prefix, flag).Some? {
        EffectiveSwitchIsLast(prefix, flag);
        var i :| 0 <= i < n && prefix[i] == Switch(flag, EffectiveSwitch(prefix, flag).value) && LastSwitchAt(prefix, flag, i);
        assert args[i] == prefix[i];
        forall j | i < j < |args| ensures args[j] != Switch(flag, true) && args[j] != Switch(flag, false) {
          if j < n { assert args[j] == prefix[j]; }
        }
        assert LastSwitchAt(args, flag, i);
      }
    }
  }

  /** The two verify switches spelled out as the driver writes them. */
  lemma SwitchRendering(verifyBeforeGC: bool, verifyAfterGC: bool)
    ensures Switch(VerifyBeforeGC, verifyBeforeGC) == if verifyBeforeGC then "-XX:+VerifyBeforeGC" else "-XX:-VerifyBeforeGC"
    ensures Switch(VerifyAfterGC, verifyAfterGC) == if verifyAfterGC then "-XX:+VerifyAfterGC" else "-XX:-VerifyAfterGC"
  {
    assert VerifyBeforeGC == "VerifyBeforeGC";
    assert VerifyAfterGC == "VerifyAfterGC";
  }

  /** Two switch renderings agree only when flag name and polarity agree. */
  lemma SwitchInjective(f: string, g: string, x: bool, y: bool)
    requires Switch(f, x) == Switch(g, y)
    ensures f == g && x == y
  {
    var sf, sg := Switch(f, x), Switch(g, y);
    assert sf[4] == (if x then '+' else '-');
    assert sg[4] == (if y then '+' else '-');
    assert f == sf[5..];
    assert g == sg[5..];
  }

  /** Appending entries that are not switches for `flag` leaves its value as it was. */
  lemma {:induction false} EffectiveSwitchSkips(args: seq<string>, tail: seq<string>, flag: string)
    requires forall k :: 0 <= k < |tail| ==> tail[k] != Switch(flag, true) && tail[k] != Switch(flag, false)
    ensures EffectiveSwitch(args + tail, flag) == EffectiveSwitch(args, flag)
    decreases |tail|
  {
    if tail != [] {
      var all := args + tail;
      assert all[..|all| - 1] == args + tail[..|tail| - 1];
      assert all[|all| - 1] == tail[|tail| - 1];
      EffectiveSwitchSkips(args, tail[..|tail| - 1], flag);
    } else {
      assert args + tail == args;
    }
  }

  /**
   * Whatever the inherited options hold (even a stale verify switch), the
   * generated switches come last and decide both flags of the child.
   */
  lemma {:induction false} SwitchesTakeEffect(verifyBeforeGC: bool, verifyAfterGC: bool, opts: Option<seq<string>>)
    ensures EffectiveSwitch(ArgumentList(verifyBeforeGC, verifyAfterGC, opts), VerifyBeforeGC) == Some(verifyBeforeGC)
    ensures EffectiveSwitch(ArgumentList(verifyBeforeGC, verifyAfterGC, opts), VerifyAfterGC) == Some(verifyAfterGC)
  {
    var o := Inherited(opts);
    var before := Switch(VerifyBeforeGC, verifyBeforeGC);
    var after := Switch(VerifyAfterGC, verifyAfterGC);
    var head := o + [MaxHeap, InitialHeap, YoungGen, UnlockDiagnostic];
    assert ArgumentList(verifyBeforeGC, verifyAfterGC, opts) == (head + [before, after]) + [WorkloadClass];
    forall b: bool ensures WorkloadClass != Switch(VerifyBeforeGC, b) && WorkloadClass != Switch(VerifyAfterGC, b) {
      assert Switch(VerifyBeforeGC, b)[0] == '-';
      assert Switch(VerifyAfterGC, b)[0] == '-';
    }
    forall b: bool ensures after != Switch(VerifyBeforeGC, b) && before != Switch(VerifyAfterGC, b) {
      if after == Switch(VerifyBeforeGC, b) { SwitchInjective(VerifyAfterGC, VerifyBeforeGC, verifyAfterGC, b); }
      if before == Switch(VerifyAfterGC, b) { SwitchInjective(VerifyBeforeGC, VerifyAfterGC, verifyBeforeGC, b); }
    }
    var hb := head + [before];
    var ha := hb + [after];
    assert head + [before, after] == ha;
    EffectiveSwitchSkips(ha, [WorkloadClass], VerifyBeforeGC);
    EffectiveSwitchSkips(ha, [WorkloadClass], VerifyAfterGC);
    EffectiveSwitchSkips(hb, [after], VerifyBeforeGC);
    if before == Switch(VerifyBeforeGC, !verifyBeforeGC) {
      SwitchInjective(VerifyBeforeGC, VerifyBeforeGC, verifyBeforeGC, !verifyBeforeGC);
    }
    if after == Switch(VerifyAfterGC, !verifyAfterGC) {
      SwitchInjective(VerifyAfterGC, VerifyAfterGC, verifyAfterGC, !verifyAfterGC);
    }
    assert hb[|hb| - 1] == before && hb[..|hb| - 1] == head;
    assert EffectiveSwitch(hb, VerifyBeforeGC) == Some(verifyBeforeGC);
    assert ha[|ha| - 1] == after && ha[..|ha| - 1] == hb;
    assert EffectiveSwitch(ha, VerifyAfterGC) == Some(verifyAfterGC);
  }

  /**
   * The argument list determines the combination it was built for and the
   * inherited options: different runs never share a command line.
   */
  lemma ArgumentListInjective(b1: bool, a1: bool, o1: Option<seq<string>>, b2: bool, a2: bool, o2: Option<seq<string>>)
    requires ArgumentList(b1, a1, o1) == ArgumentList(b2, a2, o2)
    ensures b1 == b2 && a1 == a2 && Inherited(o1) == Inherited(o2)
  {
    SwitchesTakeEffect(b1, a1, o1);
    SwitchesTakeEffect(b2, a2, o2);
    var args := ArgumentList(b1, a1, o1);
    assert Inherited(o1) == args[..|args| - 7];
    assert Inherited(o2) == ArgumentList(b2, a2, o2)[..|args| - 7];
  }
}
