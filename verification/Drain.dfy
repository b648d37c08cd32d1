/** The drain of mutations before a shutdown: every interleaving of its callers, and the manager as an object. */
module Drain {
  import opened Sorting
  import opened Wrappers

  // ---- Every interleaving of its callers ----

  /**
   * The lock makes each method one step. closed[c] tells whether channel c is closed, zero names the
   * present one, used[t] tells whether token t was released; crashed is a second close of a channel.
   */
  datatype State = State(draining: bool, active: int, zero: nat, closed: seq<bool>, used: seq<bool>, crashed: bool)

  datatype Act = Begin | ReleaseToken(t: nat) | StartDrain

  const NEW := State(false, 0, 0, [true], [], false)

  function Do(s: State, act: Act): State {
    match act
    case Begin =>
      if s.draining then s
      else if s.active == 0 then
        s.(active := 1, zero := |s.closed|, closed := s.closed + [false], used := s.used + [false])
      else s.(active := s.active + 1, used := s.used + [false])
    case ReleaseToken(t) =>
      if t >= |s.used| || s.used[t] then s
      else if s.active == 1 then
        s.(active := 0, used := s.used[t := true],
           crashed := s.crashed || s.zero >= |s.closed| || s.closed[s.zero],
           closed := if s.zero < |s.closed| then s.closed[s.zero := true] else s.closed)
      else s.(active := s.active - 1, used := s.used[t := true])
    case StartDrain => s.(draining := true)
  }

  function Run(acts: seq<Act>): State {
    if acts == [] then NEW else Do(Run(acts[..|acts| - 1]), acts[|acts| - 1])
  }

  /** How many tokens are not released. */
  function Live(used: seq<bool>): nat {
    if used == [] then 0 else Live(used[..|used| - 1]) + if used[|used| - 1] then 0 else 1
  }

  lemma {:induction false} LiveAfterRelease(used: seq<bool>, t: nat)
    requires t < |used| && !used[t]
    ensures Live(used[t := true]) == Live(used) - 1
    decreases |used|
  {
    var n := |used| - 1;
    assert used[t := true][..n] == if t < n then used[..n][t := true] else used[..n];
    if t < n { LiveAfterRelease(used[..n], t); }
  }

  lemma LiveAfterBegin(used: seq<bool>)
    ensures Live(used + [false]) == Live(used) + 1
  {
    assert (used + [false])[..|used|] == used;
  }

  ghost predicate Inv(s: State) {
    && s.active == Live(s.used) && !s.crashed
    && s.zero < |s.closed|
    && (s.closed[s.zero] <==> s.active == 0)
    && forall c :: 0 <= c < |s.closed| && c != s.zero ==> s.closed[c]
  }

  lemma DoKeepsInv(s: State, act: Act)
    requires Inv(s)
    ensures Inv(Do(s, act))
  {
    match act
    case Begin => LiveAfterBegin(s.used);
    case ReleaseToken(t) => if t < |s.used| && !s.used[t] { LiveAfterRelease(s.used, t); }
    case StartDrain =>
  }

  lemma {:induction false} RunKeepsInv(acts: seq<Act>)
    ensures Inv(Run(acts))
  {
    if acts != [] {
      RunKeepsInv(acts[..|acts| - 1]);
      DoKeepsInv(Run(acts[..|acts| - 1]), acts[|acts| - 1]);
    }
  }

  /**
   * In every interleaving: active is the number of tokens not yet released, the present channel is
   * closed exactly when it is zero, every earlier channel is closed, and none was closed twice.
   */
  lemma ChannelIsExact(acts: seq<Act>)
    ensures var s := Run(acts);
            && s.active == Live(s.used) && !s.crashed && s.zero < |s.closed|
            && forall c :: 0 <= c < |s.closed| ==> (s.closed[c] <==> c != s.zero || s.active == 0)
  {
    hide Run, Live;
    RunKeepsInv(acts);
  }

  lemma DrainingStep(s: State, act: Act)
    requires Inv(s) && s.draining
    ensures var s' := Do(s, act); s'.draining && s'.zero == s.zero && s'.active <= s.active
  {
    hide Live;
  }

  /** While draining, the channel stays, and a closed one means that nothing is active. */
  lemma {:induction false} DrainingStays(acts: seq<Act>, i: nat, j: nat)
    requires i <= j <= |acts| && Run(acts[..i]).draining
    ensures var a, b := Run(acts[..i]), Run(acts[..j]);
            b.draining && b.zero == a.zero && b.active <= a.active
    decreases j - i
  {
    hide Do, Inv;
    if i < j {
      DrainingStays(acts, i, j - 1);
      RunKeepsInv(acts[..j - 1]);
      assert acts[..j][..j - 1] == acts[..j - 1] && acts[..j][j - 1] == acts[j - 1];
      DrainingStep(Run(acts[..j - 1]), acts[j - 1]);
    }
  }

  /**
   * A wait reads the channel at moment i and returns without error at some moment j when it finds it
   * closed. If the drain had started by i, nothing is active at j or ever after.
   */
  lemma WaitMeansDrained(acts: seq<Act>, i: nat, j: nat, k: nat)
    requires i <= j <= k <= |acts| && Run(acts[..i]).draining
    requires var ch := Run(acts[..i]).zero; ch < |Run(acts[..j]).closed| && Run(acts[..j]).closed[ch]
    ensures Run(acts[..k]).active == 0
  {
    hide Run;
    DrainingStays(acts, i, j);
    DrainingStays(acts, j, k);
    RunKeepsInv(acts[..j]);
    RunKeepsInv(acts[..k]);
  }

  // ---- Exactly which waits can be relied on ----

  /** A wait that read the channel after acts finds it closed after j more of the acts that follow. */
  predicate Returns(acts: seq<Act>, more: seq<Act>, j: nat) {
    && j <= |more|
    && Run(acts).zero < |Run(acts + more[..j]).closed|
    && Run(acts + more[..j]).closed[Run(acts).zero]
  }

  /** Whatever follows, when the wait has returned nothing is active. */
  ghost predicate WaitIsSafe(acts: seq<Act>) {
    forall more, j :: Returns(acts, more, j) ==> Run(acts + more).active == 0
  }

  lemma RunExtends(acts: seq<Act>, act: Act)
    ensures Run(acts + [act]) == Do(Run(acts), act)
  {
    assert (acts + [act])[..|acts|] == acts;
  }

  lemma {:induction false} SomeUnused(used: seq<bool>) returns (t: nat)
    requires Live(used) > 0
    ensures t < |used| && !used[t]
  {
    var n := |used| - 1;
    if !used[n] { t := n; } else { t := SomeUnused(used[..n]); }
  }

  /** While no drain has begun, the mutations of the moment can all end, and the channel with them. */
  lemma {:induction false} AllCanEnd(acts: seq<Act>) returns (more: seq<Act>)
    requires !Run(acts).draining
    ensures var s := Run(acts + more);
            !s.draining && s.active == 0 && s.zero == Run(acts).zero && s.zero < |s.closed| && s.closed[s.zero]
    decreases Run(acts).active
  {
    hide Run;
    RunKeepsInv(acts);
    var s := Run(acts);
    if s.active == 0 {
      more := [];
      assert acts + more == acts;
    } else {
      var t := SomeUnused(s.used);
      var act := ReleaseToken(t);
      RunExtends(acts, act);
      RunKeepsInv(acts + [act]);
      var rest := AllCanEnd(acts + [act]);
      more := [act] + rest;
      assert acts + more == acts + [act] + rest;
    }
  }

  /**
   * A wait can be relied on exactly if the drain had started when it began: otherwise the mutations
   * of the moment may all end, the wait return, and another mutation begin.
   */
  lemma WaitIsSafeExactly(acts: seq<Act>)
    ensures WaitIsSafe(acts) <==> Run(acts).draining
  {
    hide Run, Do;
    if Run(acts).draining {
      forall more, j | Returns(acts, more, j) ensures Run(acts + more).active == 0 {
        var all := acts + more;
        assert all[..|acts|] == acts && all[..|acts| + j] == acts + more[..j] && all[..|all|] == all;
        WaitMeansDrained(all, |acts|, |acts| + j, |all|);
      }
    } else {
      var ended := AllCanEnd(acts);
      var more := ended + [Begin];
      assert more[..|ended|] == ended && acts + more == acts + ended + [Begin];
      RunExtends(acts + ended, Begin);
      BeginMakesActive(Run(acts + ended));
      assert Returns(acts, more, |ended|);
    }
  }

  lemma BeginMakesActive(s: State)
    requires !s.draining && s.active == 0
    ensures Do(s, Begin).active == 1
  {
  }

  /** The shortest instance: a wait of an idle manager holds a channel that is closed already. */
  lemma EarlyWaitPromisesNothing()
    ensures var acts := [Begin, StartDrain];
            && Run(acts[..2]).draining && Run(acts[..2]).active == 1
            && Run(acts[..2]).closed[Run(acts[..0]).zero]
  {
    var acts := [Begin, StartDrain];
    assert acts[..2][..1] == acts[..1] && acts[..1][..0] == [] && acts[..2][1] == StartDrain;
    assert Run([]) == NEW;
    assert Run(acts[..1]) == Do(NEW, Begin);
    assert Run(acts[..2]) == Do(Do(NEW, Begin), StartDrain);
  }

  // ---- The object ----

  /** Closing a channel a second time would end the process, so a close must be of an open one. */
  class Channel {
    var closed: bool

    constructor (c: bool)
      ensures closed == c
    {
      closed := c;
    }

    method Close()
      requires !closed
      modifies this
      ensures closed
    {
      closed := true;
    }
  }

  /** The release that BeginMutation hands out; it acts once, however often it is called. */
  class Token {
    var used: bool

    constructor ()
      ensures !used
    {
      used := false;
    }
  }

  lemma ClosedFlagsAppend(channels: seq<Channel>, ch: Channel)
    ensures ClosedFlags(channels + [ch]) == ClosedFlags(channels) + [ch.closed]
  {
    assert (channels + [ch])[..|channels|] == channels;
  }

  lemma UsedFlagsAppend(tokens: seq<Token>, t: Token)
    ensures UsedFlags(tokens + [t]) == UsedFlags(tokens) + [t.used]
  {
    assert (tokens + [t])[..|tokens|] == tokens;
  }

  datatype Status = Status(draining: bool, active: int, reason: string, startedAt: Option<nat>)

  ghost function ClosedFlags(channels: seq<Channel>): (flags: seq<bool>)
    reads channels
    ensures |flags| == |channels| && forall i :: 0 <= i < |channels| ==> flags[i] == channels[i].closed
  {
    if channels == [] then []
    else ClosedFlags(channels[..|channels| - 1]) + [channels[|channels| - 1].closed]
  }

  ghost function UsedFlags(tokens: seq<Token>): (flags: seq<bool>)
    reads tokens
    ensures |flags| == |tokens| && forall i :: 0 <= i < |tokens| ==> flags[i] == tokens[i].used
  {
    if tokens == [] then []
    else UsedFlags(tokens[..|tokens| - 1]) + [tokens[|tokens| - 1].used]
  }

  lemma {:induction false} SomeLive(used: seq<bool>, k: nat)
    requires k < |used|
    ensures !used[k] ==> Live(used) > 0
  {
    var n := |used| - 1;
    if k < n { SomeLive(used[..n], k); }
  }

  /** While a token is unreleased something is active, and the channel open. */
  lemma UnusedMeansOpen(s: State, k: nat)
    requires Inv(s) && k < |s.used|
    ensures s.zero < |s.closed| && (!s.used[k] ==> s.active > 0 && !s.closed[s.zero])
  {
    SomeLive(s.used, k);
  }

  lemma DistinctAppend<T>(list: seq<T>, x: T)
    requires Distinct(list) && x !in list
    ensures Distinct(list + [x])
  {
  }

  lemma OneIndex<T>(list: seq<T>, k: nat)
    requires Distinct(list) && k < |list|
    ensures forall i :: 0 <= i < |list| && list[i] == list[k] ==> i == k
  {
  }

  class Manager {
    var draining: bool
    var active: int
    var reason: string
    var startedAt: Option<nat>
    var zero: Channel

    /** The channels made so far, the present one last, and the tokens handed out. */
    ghost var channels: seq<Channel>
    ghost var tokens: seq<Token>

    /** The manager as a state of the interleavings above. */
    ghost function View(): State
      reads this, channels, tokens
      requires channels != []
    {
      State(draining, active, |channels| - 1, ClosedFlags(channels), UsedFlags(tokens), false)
    }

    ghost predicate Valid()
      reads this, channels, tokens
    {
      Sound() && Inv(View())
    }

    ghost predicate Sound()
      reads this
    {
      channels != [] && zero == channels[|channels| - 1] && Distinct(channels) && Distinct(tokens)
    }

    function Report(): Status
      reads this
    {
      Status(draining, active, reason, startedAt)
    }

    constructor ()
      ensures Valid() && View() == NEW && Report() == Status(false, 0, "", None)
      ensures fresh(channels) && tokens == []
    {
      draining, active, reason, startedAt := false, 0, "", None;
      var ch := new Channel(true);
      zero := ch;
      channels := [ch];
      tokens := [];
      new;
      assert View() == NEW;
    }

    /** A mutation may begin only while no drain has; its token counts until it is released. */
    method BeginMutation() returns (token: Option<Token>)
      requires Valid()
      modifies this
      ensures Valid() && View() == Do(old(View()), Begin)
      ensures token.None? <==> old(draining)
      ensures token.None? ==> Report() == old(Report()) && tokens == old(tokens)
      ensures token.Some? ==> fresh(token.value) && tokens == old(tokens) + [token.value]
      ensures reason == old(reason) && startedAt == old(startedAt)
      ensures channels == old(channels) || (fresh(zero) && channels == old(channels) + [zero])
    {
      hide Inv, Distinct, ClosedFlags, UsedFlags;
      DoKeepsInv(View(), Begin);
      if draining { return None; }
      OpenIfIdle();
      var t := Issue();
      token := Some(t);
    }

    /** Between two lulls the channel is a new one. */
    method OpenIfIdle()
      requires Sound()
      modifies this`zero, this`channels
      ensures Sound()
      ensures if active == 0 then fresh(zero) && channels == old(channels) + [zero]
              else zero == old(zero) && channels == old(channels)
      ensures ClosedFlags(channels) == old(ClosedFlags(channels)) + (if active == 0 then [false] else [])
    {
      hide Distinct, ClosedFlags;
      if active == 0 {
        var ch := new Channel(false);
        DistinctAppend(channels, ch);
        ClosedFlagsAppend(channels, ch);
        zero := ch;
        channels := channels + [ch];
      }
    }

    method Issue() returns (t: Token)
      requires Sound()
      modifies this`active, this`tokens
      ensures Sound() && active == old(active) + 1
      ensures fresh(t) && tokens == old(tokens) + [t]
      ensures UsedFlags(tokens) == old(UsedFlags(tokens)) + [false]
    {
      hide Distinct, UsedFlags;
      active := active + 1;
      t := new Token();
      DistinctAppend(tokens, t);
      UsedFlagsAppend(tokens, t);
      tokens := tokens + [t];
    }

    /** The last release closes the channel, which is open until then. */
    method Release(t: Token)
      requires Valid() && t in tokens
      modifies this`active, t, zero
      ensures Valid() && t.used
      ensures forall k :: 0 <= k < |tokens| && tokens[k] == t ==> View() == Do(old(View()), ReleaseToken(k))
    {
      hide Inv, Distinct, ClosedFlags, UsedFlags;
      ghost var k :| 0 <= k < |tokens| && tokens[k] == t;
      ghost var before := View();
      OneIndex(tokens, k);
      DoKeepsInv(before, ReleaseToken(k));
      UnusedMeansOpen(before, k);
      if t.used { return; }
      CountDown(t, k);
      CloseIfIdle();
    }

    method CountDown(t: Token, ghost k: nat)
      requires Sound() && k < |tokens| && tokens[k] == t
      modifies this`active, t
      ensures t.used && active == old(active) - 1
      ensures UsedFlags(tokens) == old(UsedFlags(tokens))[k := true]
    {
      hide Distinct, UsedFlags;
      OneIndex(tokens, k);
      t.used := true;
      active := active - 1;
    }

    method CloseIfIdle()
      requires Sound() && (active == 0 ==> !zero.closed)
      modifies zero
      ensures ClosedFlags(channels) ==
                if active == 0 then old(ClosedFlags(channels))[|channels| - 1 := true] else old(ClosedFlags(channels))
    {
      hide Distinct, ClosedFlags;
      OneIndex(channels, |channels| - 1);
      if active == 0 {
        zero.Close();
      }
    }

    /** Only the first start records its reason and time. */
    method Start(why: string, now: nat) returns (s: Status)
      requires Valid()
      modifies this`draining, this`reason, this`startedAt
      ensures Valid() && View() == Do(old(View()), StartDrain) && s == Report()
      ensures Report() == if old(draining) then old(Report()) else Status(true, old(active), why, Some(now))
    {
      hide Inv, Distinct, ClosedFlags, UsedFlags;
      DoKeepsInv(View(), StartDrain);
      if !draining {
        draining, reason, startedAt := true, why, Some(now);
      }
      s := Report();
    }

    /** A wait begins by reading the present channel under the lock. */
    method BeginWait() returns (ch: Channel)
      requires Valid()
      ensures ch == zero == channels[View().zero]
    {
      ch := zero;
    }

    /** It goes on once that channel is closed or the caller has given up; with both, either may be reported. */
    method EndWait(ch: Channel, cancelled: bool, takesCancel: bool) returns (ok: bool)
      requires ch.closed || cancelled
      ensures ok ==> ch.closed
      ensures !cancelled ==> ok
    {
      ok := ch.closed && !(cancelled && takesCancel);
    }
  }
}
