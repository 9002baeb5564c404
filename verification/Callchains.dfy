/** Which addresses of a sample's callchain and branch stack are looked up. */
module Callchains {
  import opened WordArithmetic

  const CONTEXT_MAX: u64 := 0xFFFF_FFFF_FFFF_F001
  const CONTEXT_HV: u64 := 0xFFFF_FFFF_FFFF_FFE0
  const CONTEXT_KERNEL: u64 := 0xFFFF_FFFF_FFFF_FF80
  const CONTEXT_USER: u64 := 0xFFFF_FFFF_FFFF_FE00

  datatype Branch = Branch(from: u64, to: u64)

  /** A sample's own address, its callchain and its branch stack. */
  datatype Chain = Chain(ip: u64, callchain: seq<u64>, branches: seq<Branch>)

  datatype Report = Report(ip: u64, isKernel: bool)

  /** Where the walk over the callchain is: in kernel or user space, whether a user address
      was reported, and whether an unknown context marker ended it. */
  datatype Place = Place(isKernel: bool, addedUserFrames: bool, invalid: bool)

  const START := Place(false, false, false)

  /** The addresses that the walk over a callchain reports from a place on, and where it ends. */
  function Walk(c: Chain, callchain: seq<u64>, p: Place): (seq<Report>, Place) {
    if callchain == [] then ([], p)
    else
      var ip := callchain[0];
      if ip > CONTEXT_MAX then
        if ip == CONTEXT_HV || ip == CONTEXT_KERNEL then Walk(c, callchain[1..], p.(isKernel := true))
        else if ip == CONTEXT_USER then Walk(c, callchain[1..], p.(isKernel := false))
        else ([], p.(invalid := true))
      else
        var own := if !p.addedUserFrames && !p.isKernel && ip != c.ip then [Report(c.ip, false)] else [];
        if c.branches != [] && !p.isKernel then (own, p)
        else
          var later := Walk(c, callchain[1..], p.(addedUserFrames := p.addedUserFrames || !p.isKernel));
          (own + [Report(ip, p.isKernel)] + later.0, later.1)
  }

  function Callers(branches: seq<Branch>): seq<Report> {
    if branches == [] then [] else [Report(branches[0].from, false)] + Callers(branches[1..])
  }

  /** A branch stack starts with the first callee and goes on with the callers. */
  function BranchReports(branches: seq<Branch>): seq<Report> {
    if branches == [] then [] else [Report(branches[0].to, false)] + Callers(branches)
  }

  /** The branch stack follows, unless the callchain ends in the kernel or is invalid. */
  function Remaining(c: Chain, callchain: seq<u64>, p: Place): seq<Report> {
    var (reports, end) := Walk(c, callchain, p);
    if end.invalid || end.isKernel then reports else reports + BranchReports(c.branches)
  }

  function Reports(c: Chain): seq<Report> {
    Remaining(c, c.callchain, START)
  }

  // ------------------------------------------------------------ what that amounts to

  /** The addresses between the context markers, labelled with their space; an unknown
      marker ends the list. */
  function Labelled(callchain: seq<u64>, isKernel: bool): seq<Report> {
    if callchain == [] then []
    else
      var ip := callchain[0];
      if ip <= CONTEXT_MAX then [Report(ip, isKernel)] + Labelled(callchain[1..], isKernel)
      else if ip == CONTEXT_HV || ip == CONTEXT_KERNEL then Labelled(callchain[1..], true)
      else if ip == CONTEXT_USER then Labelled(callchain[1..], false)
      else []
  }

  function KernelFront(reports: seq<Report>): seq<Report> {
    if reports == [] || !reports[0].isKernel then [] else [reports[0]] + KernelFront(reports[1..])
  }

  /** The user part, led by the sample's own address. */
  function LedBy(reports: seq<Report>, ip: u64): seq<Report> {
    if reports == [] || reports[0].ip == ip then reports else [Report(ip, false)] + reports
  }

  function UserPart(reports: seq<Report>): seq<Report> {
    if reports == [] || !reports[0].isKernel then reports else UserPart(reports[1..])
  }

  lemma PartsStep(r: Report, later: seq<Report>)
    ensures KernelFront([r] + later) == if r.isKernel then [r] + KernelFront(later) else []
    ensures UserPart([r] + later) == if r.isKernel then UserPart(later) else [r] + later
  {
    assert ([r] + later)[1..] == later;
  }

  lemma WalkAddress(c: Chain, ip: u64, rest: seq<u64>, p: Place)
    requires ip <= CONTEXT_MAX
    ensures var own := if !p.addedUserFrames && !p.isKernel && ip != c.ip then [Report(c.ip, false)] else [];
      Walk(c, [ip] + rest, p).0 ==
        if c.branches != [] && !p.isKernel then own
        else own + [Report(ip, p.isKernel)] + Walk(c, rest, p.(addedUserFrames := p.addedUserFrames || !p.isKernel)).0
    ensures Labelled([ip] + rest, p.isKernel) == [Report(ip, p.isKernel)] + Labelled(rest, p.isKernel)
  {
    assert ([ip] + rest)[1..] == rest;
  }

  /** A context marker switches the space, or ends everything. */
  lemma WalkMarker(c: Chain, ip: u64, rest: seq<u64>, p: Place)
    requires ip > CONTEXT_MAX
    ensures var p' := p.(isKernel := ip != CONTEXT_USER);
      if ip == CONTEXT_HV || ip == CONTEXT_KERNEL || ip == CONTEXT_USER then
        && Walk(c, [ip] + rest, p).0 == Walk(c, rest, p').0
        && Labelled([ip] + rest, p.isKernel) == Labelled(rest, p'.isKernel)
      else Walk(c, [ip] + rest, p).0 == Labelled([ip] + rest, p.isKernel) == []
  {
    assert ([ip] + rest)[1..] == rest;
  }

  /** Without a branch stack, all labelled addresses are reported, and the user part starts
      with the sample's own address. */
  lemma {:induction false} CallchainReports(c: Chain, callchain: seq<u64>, p: Place)
    requires c.branches == []
    ensures var all := Labelled(callchain, p.isKernel);
      Walk(c, callchain, p).0 == if p.addedUserFrames then all else KernelFront(all) + LedBy(UserPart(all), c.ip)
  {
    if callchain != [] {
      hide Walk, Labelled, KernelFront, UserPart;
      var ip, rest := callchain[0], callchain[1..];
      assert callchain == [ip] + rest;
      if ip > CONTEXT_MAX {
        WalkMarker(c, ip, rest, p);
        NoParts();
        CallchainReports(c, rest, p.(isKernel := ip != CONTEXT_USER));
      } else {
        WalkAddress(c, ip, rest, p);
        CallchainReports(c, rest, p.(addedUserFrames := p.addedUserFrames || !p.isKernel));
        PartsStep(Report(ip, p.isKernel), Labelled(rest, p.isKernel));
      }
    }
  }

  lemma NoParts()
    ensures KernelFront([]) == UserPart([]) == []
  {
  }

  /** With a branch stack, the callchain's user part is cut down to the sample's own address,
      and only where the callchain itself starts elsewhere. */
  lemma {:induction false} BranchStackReports(c: Chain, callchain: seq<u64>, p: Place)
    requires c.branches != [] && !p.addedUserFrames
    ensures var all := Labelled(callchain, p.isKernel);
      var user := UserPart(all);
      Walk(c, callchain, p).0 ==
        KernelFront(all) + if user != [] && user[0].ip != c.ip then [Report(c.ip, false)] else []
  {
    if callchain != [] {
      hide Walk, Labelled, KernelFront, UserPart;
      var ip, rest := callchain[0], callchain[1..];
      assert callchain == [ip] + rest;
      if ip > CONTEXT_MAX {
        WalkMarker(c, ip, rest, p);
        NoParts();
        BranchStackReports(c, rest, p.(isKernel := ip != CONTEXT_USER));
      } else {
        WalkAddress(c, ip, rest, p);
        BranchStackReports(c, rest, p);
        PartsStep(Report(ip, p.isKernel), Labelled(rest, p.isKernel));
      }
    }
  }

  /** The callchain has no unknown marker, and after its last one it is in user space. */
  predicate EndsInUser(callchain: seq<u64>, isKernel: bool) {
    if callchain == [] then !isKernel
    else
      var ip := callchain[0];
      if ip <= CONTEXT_MAX then EndsInUser(callchain[1..], isKernel)
      else if ip == CONTEXT_HV || ip == CONTEXT_KERNEL then EndsInUser(callchain[1..], true)
      else ip == CONTEXT_USER && EndsInUser(callchain[1..], false)
  }

  lemma EndStep(c: Chain, ip: u64, rest: seq<u64>, p: Place)
    ensures EndsInUser([ip] + rest, p.isKernel) ==
      if ip <= CONTEXT_MAX then EndsInUser(rest, p.isKernel)
      else if ip == CONTEXT_HV || ip == CONTEXT_KERNEL || ip == CONTEXT_USER then EndsInUser(rest, ip != CONTEXT_USER)
      else false
    ensures Walk(c, [ip] + rest, p).1 ==
      if ip <= CONTEXT_MAX then
        if c.branches != [] && !p.isKernel then p
        else Walk(c, rest, p.(addedUserFrames := p.addedUserFrames || !p.isKernel)).1
      else if ip == CONTEXT_HV || ip == CONTEXT_KERNEL || ip == CONTEXT_USER then
        Walk(c, rest, p.(isKernel := ip != CONTEXT_USER)).1
      else p.(invalid := true)
  {
    assert ([ip] + rest)[1..] == rest;
  }

  /** With a branch stack the walk ends in user space at the first user address, or behind the
      callchain. */
  lemma {:induction false} WalkEnds(c: Chain, callchain: seq<u64>, p: Place)
    requires c.branches != [] && !p.addedUserFrames && !p.invalid
    ensures var end := Walk(c, callchain, p).1;
      !end.invalid && !end.isKernel <==>
        UserPart(Labelled(callchain, p.isKernel)) != [] || EndsInUser(callchain, p.isKernel)
  {
    if callchain != [] {
      hide Walk, Labelled, KernelFront, UserPart, EndsInUser;
      var ip, rest := callchain[0], callchain[1..];
      assert callchain == [ip] + rest;
      EndStep(c, ip, rest, p);
      if ip > CONTEXT_MAX {
        WalkMarker(c, ip, rest, p);
        NoParts();
        WalkEnds(c, rest, p.(isKernel := ip != CONTEXT_USER));
      } else {
        WalkAddress(c, ip, rest, p);
        PartsStep(Report(ip, p.isKernel), Labelled(rest, p.isKernel));
        if p.isKernel {
          WalkEnds(c, rest, p);
        }
      }
    }
  }

  /** All that is looked up for a sample: the kernel part of the callchain, then its user part
      led by the sample's own address, or in its place the branch stack if there is one. The
      branch stack is left out if the callchain has no user address and ends in the kernel or
      at an unknown marker. */
  lemma ReportsExact(c: Chain)
    ensures var all := Labelled(c.callchain, false);
      var user := UserPart(all);
      Reports(c) == KernelFront(all) +
        if c.branches == [] then LedBy(user, c.ip)
        else
          (if user != [] && user[0].ip != c.ip then [Report(c.ip, false)] else []) +
          (if user != [] || EndsInUser(c.callchain, false) then BranchReports(c.branches) else [])
  {
    hide Walk, Labelled, KernelFront, UserPart, EndsInUser;
    if c.branches == [] {
      CallchainReports(c, c.callchain, START);
    } else {
      BranchStackReports(c, c.callchain, START);
      WalkEnds(c, c.callchain, START);
    }
  }

  /** The branch stack is looked up from its first callee on through all callers. */
  lemma {:induction false} BranchesReported(branches: seq<Branch>)
    ensures var r := BranchReports(branches);
      && |r| == (if branches == [] then 0 else |branches| + 1)
      && (branches != [] ==> r[0] == Report(branches[0].to, false))
      && forall i :: 0 <= i < |branches| ==> r[i + 1] == Report(branches[i].from, false)
  {
    CallersReported(branches);
  }

  lemma {:induction false} CallersReported(branches: seq<Branch>)
    ensures |Callers(branches)| == |branches|
    ensures forall i :: 0 <= i < |branches| ==> Callers(branches)[i] == Report(branches[i].from, false)
  {
    if branches != [] {
      CallersReported(branches[1..]);
    }
  }

  const KERNEL_FIRST := Chain(0x10, [0xFFFF_FFFF_FFFF_FF80, 0x7000, 0xFFFF_FFFF_FFFF_FE00, 0x20], [])
  const UNKNOWN_MARKER := Chain(0x10, [0xFFFF_FFFF_FFFF_FFE0, 0xFFFF_FFFF_FFFF_F001, 0xFFFF_FFFF_FFFF_F002, 0x20], [])

  /** One marker of a callchain stands for the kernel and one for user space. */
  lemma MarkerExample()
    ensures Reports(KERNEL_FIRST) == [Report(0x7000, true), Report(0x10, false), Report(0x20, false)]
  {
    hide Walk;
    var kernel := START.(isKernel := true);
    var c := KERNEL_FIRST;
    WalkMarker(c, c.callchain[0], [0x7000, 0xFFFF_FFFF_FFFF_FE00, 0x20], START);
    WalkAddress(c, 0x7000, [0xFFFF_FFFF_FFFF_FE00, 0x20], kernel);
    WalkMarker(c, 0xFFFF_FFFF_FFFF_FE00, [0x20], kernel);
    WalkAddress(c, 0x20, [], START);
    WalkNothing(c, START.(addedUserFrames := true));
    assert [c.callchain[0]] + [0x7000, 0xFFFF_FFFF_FFFF_FE00, 0x20] == c.callchain;
    assert [0x7000] + [0xFFFF_FFFF_FFFF_FE00, 0x20] == [0x7000, 0xFFFF_FFFF_FFFF_FE00, 0x20];
    assert [0xFFFF_FFFF_FFFF_FE00] + [0x20] == [0xFFFF_FFFF_FFFF_FE00, 0x20] && [0x20] + [] == [0x20];
  }

  /** The hypervisor's marker stands for the kernel too; up to 2^64 - 4095 numbers are addresses,
      and an unknown one above that ends the chain. */
  lemma UnknownMarkerExample()
    ensures Reports(UNKNOWN_MARKER) == [Report(0xFFFF_FFFF_FFFF_F001, true)]
  {
    hide Walk;
    var kernel := START.(isKernel := true);
    var c := UNKNOWN_MARKER;
    WalkMarker(c, c.callchain[0], c.callchain[1..], START);
    WalkAddress(c, c.callchain[1], c.callchain[2..], kernel);
    WalkMarker(c, c.callchain[2], c.callchain[3..], kernel);
    assert forall i :: 0 <= i < 3 ==> [c.callchain[i]] + c.callchain[i + 1..] == c.callchain[i..];
    assert c.callchain[0..] == c.callchain;
  }

  lemma WalkNothing(c: Chain, p: Place)
    ensures Walk(c, [], p) == ([], p)
  {
  }
}
