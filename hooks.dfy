// The hook registry: prefix-matching observers that capture the most
// recent line starting with their prefix (class SIMHook and the chain walk
// of SimpleSIM::wait_resp).

module Hooks {
  import opened SimTypes

  /** strlen: the number of bytes before the first NUL, or all of them. */
  function Strlen(s: seq<byte>): (n: nat)
    ensures n <= |s|
    ensures forall i | 0 <= i < n :: s[i] != NUL
    ensures n < |s| ==> s[n] == NUL
  {
    if s == [] || s[0] == NUL then 0 else 1 + Strlen(s[1..])
  }

  /** The value a hook holds: the bytes its prefix compares and its capture. */
  datatype HookState = HookState(prefix: seq<byte>, capture: seq<byte>)

  /** `len >= m_prefix_len && !memcmp(buff, m_prefix, m_prefix_len)` */
  predicate Matches(prefix: seq<byte>, line: seq<byte>)
    ensures prefix == [] ==> Matches(prefix, line)
    ensures Matches(prefix, line) ==> |prefix| <= |line|
  {
    |line| >= |prefix| && line[..|prefix|] == prefix
  }

  /** The test is memcmp's: the line is long enough and agrees with the prefix byte for byte. */
  lemma MatchesBytewise(prefix: seq<byte>, line: seq<byte>)
    ensures Matches(prefix, line) <==>
      |line| >= |prefix| && forall i | 0 <= i < |prefix| :: line[i] == prefix[i]
  {
    if |line| >= |prefix| && forall i | 0 <= i < |prefix| :: line[i] == prefix[i] {
      assert line[..|prefix|] == prefix;
    }
  }

  /**
   * The C string held at `s`: its bytes up to the first NUL. This is what
   * `m_buff = buff` copies and what `print(cmd)` writes. The driver writes a
   * NUL just past every line it hands on, so a line without NUL is kept whole.
   */
  function CStr(s: seq<byte>): (r: seq<byte>)
    ensures r <= s
    ensures NUL !in r
    ensures NUL !in s ==> r == s
    ensures |r| < |s| ==> s[|r|] == NUL
  {
    var n := Strlen(s);
    assert forall i | 0 <= i < n :: s[..n][i] == s[i];
    s[..n]
  }

  /** The position, newest first, of the hook that takes a line, if any. */
  function FirstMatch(chain: seq<HookState>, line: seq<byte>): (r: Option<nat>)
    ensures r.Some? ==> r.value < |chain| && Matches(chain[r.value].prefix, line)
    ensures r.Some? ==> forall j | 0 <= j < r.value :: !Matches(chain[j].prefix, line)
    ensures r.None? <==> forall j | 0 <= j < |chain| :: !Matches(chain[j].prefix, line)
  {
    if chain == [] then None
    else if Matches(chain[0].prefix, line) then Some(0)
    else match FirstMatch(chain[1..], line)
      case None => None
      case Some(k) => Some(k + 1)
  }

  /** The chain after a line has been offered to it. */
  function Dispatch(chain: seq<HookState>, line: seq<byte>): (r: seq<HookState>)
    ensures |r| == |chain|
    ensures forall j | 0 <= j < |chain| :: r[j].prefix == chain[j].prefix
  {
    match FirstMatch(chain, line)
    case None => chain
    case Some(i) => chain[i := chain[i].(capture := CStr(line))]
  }

  /**
   * Dispatch changes exactly one capture, that of the first matching hook,
   * and it replaces it by the line; no match changes nothing.
   */
  lemma DispatchEffect(chain: seq<HookState>, line: seq<byte>, j: nat)
    requires j < |chain|
    ensures Dispatch(chain, line)[j].capture ==
      if FirstMatch(chain, line) == Some(j) then CStr(line) else chain[j].capture
    ensures FirstMatch(chain, line).Some? <==> exists k | 0 <= k < |chain| :: Matches(chain[k].prefix, line)
  {
  }

  /**
   * The most recently added hook (the head of the chain) takes every line
   * its prefix matches, and the older hooks are left as they were.
   */
  lemma NewestHookWins(h: HookState, chain: seq<HookState>, line: seq<byte>)
    requires Matches(h.prefix, line)
    ensures Dispatch([h] + chain, line) == [h.(capture := CStr(line))] + chain
  {
  }

  /** Only the line offered last stays in a hook: captures are replaced, never appended. */
  lemma {:induction false} CaptureReplaces(chain: seq<HookState>, line1: seq<byte>, line2: seq<byte>, j: nat)
    requires j < |chain|
    requires FirstMatch(chain, line2) == Some(j)
    ensures Dispatch(Dispatch(chain, line1), line2)[j].capture == CStr(line2)
  {
    var mid := Dispatch(chain, line1);
    FirstMatchPrefixes(chain, mid, line2);
  }

  /** FirstMatch looks only at the prefixes. */
  lemma {:induction false} FirstMatchPrefixes(a: seq<HookState>, b: seq<HookState>, line: seq<byte>)
    requires |a| == |b|
    requires forall j | 0 <= j < |a| :: a[j].prefix == b[j].prefix
    ensures FirstMatch(a, line) == FirstMatch(b, line)
  {
    if a != [] && !Matches(a[0].prefix, line) {
      FirstMatchPrefixes(a[1..], b[1..], line);
    }
  }

  /**
   * Two hooks, "+CMT:" added first and "+CMT:URGENT" added last: the line
   * "+CMT:URGENT,1" goes to the urgent hook only.
   */
  lemma UrgentHookTakesUrgentLine(general: seq<byte>, urgent: seq<byte>)
    requires general == Ascii("+CMT:") && urgent == Ascii("+CMT:URGENT")
    ensures var chain := [HookState(urgent, []), HookState(general, [])];
      var line := Ascii("+CMT:URGENT,1");
      Dispatch(chain, line) == [HookState(urgent, line), HookState(general, [])]
  {
    var line := Ascii("+CMT:URGENT,1");
    assert line[..|urgent|] == urgent;
    assert NUL !in line;
  }

  /** SIMHook: a caller-owned observer linked into a driver's chain. */
  class Hook {
    /** The C string the hook was built from (`m_prefix`). */
    const prefix: seq<byte>
    /** `m_prefix_len`, fixed at construction. */
    const prefixLen: nat
    /** `m_buff`: the last captured line. */
    var buff: seq<byte>
    /** `m_next`: the next older hook of the chain. */
    var next: Hook?

    predicate Valid()
    {
      prefixLen == Strlen(prefix)
    }

    /** The bytes `hook` compares against. */
    function Key(): (k: seq<byte>)
      requires Valid()
      ensures |k| == prefixLen && NUL !in k
    {
      prefix[..prefixLen]
    }

    ghost function State(): HookState
      reads this`buff
      requires Valid()
    {
      HookState(Key(), buff)
    }

    constructor (prefix: seq<byte>)
      ensures Valid()
      ensures this.prefix == prefix && prefixLen == Strlen(prefix)
      ensures buff == [] && next == null
    {
      this.prefix := prefix;
      prefixLen := Strlen(prefix);
      buff := [];
      next := null;
    }

    /** captured(): the length of the capture, zero when nothing is held. */
    function Captured(): (n: nat)
      reads this
      ensures n == |buff|
      ensures n == 0 <==> buff == []
    {
      |buff|
    }

    /** operator bool: whether something is captured. */
    function IsSet(): (b: bool)
      reads this
      ensures b <==> buff != []
    {
      Captured() != 0
    }

    /** reset(): forget the capture. */
    method Reset()
      modifies this`buff
      ensures buff == [] && Captured() == 0
    {
      buff := [];
    }

    /** hook(buff, len): take the line if it starts with the prefix. */
    method Offer(line: seq<byte>) returns (taken: bool)
      requires Valid()
      modifies this`buff
      ensures taken == Matches(Key(), line)
      ensures buff == if taken then CStr(line) else old(buff)
    {
      if |line| >= prefixLen && line[..prefixLen] == prefix[..prefixLen] {
        buff := CStr(line);
        return true;
      }
      return false;
    }
  }

  // The hook chain: hooks linked newest first through `m_next`, and the walk
  // of wait_resp that offers each completed line along it.

  /** Hook `i` of a chain, or null past its end. */
  function HookAt(hs: seq<Hook>, i: nat): Hook?
  {
    if i < |hs| then hs[i] else null
  }

  predicate AllValid(hs: seq<Hook>)
  {
    forall i | 0 <= i < |hs| :: hs[i].Valid()
  }

  /** The values of the hooks of a chain. */
  ghost function States(hs: seq<Hook>): (c: seq<HookState>)
    reads hs`buff
    requires AllValid(hs)
    ensures |c| == |hs| && forall i | 0 <= i < |hs| :: c[i] == hs[i].State()
  {
    if hs == [] then [] else [hs[0].State()] + States(hs[1..])
  }

  /** Each hook's `m_next` is the hook after it, and the last one's is null. */
  ghost predicate Linked(hs: seq<Hook>)
    reads hs`next
  {
    hs == [] || (hs[0].next == HookAt(hs, 1) && Linked(hs[1..]))
  }

  /** In a linked chain, the `m_next` of hook `i` is hook `i + 1`, or null for the last. */
  lemma {:induction false} LinkedAt(hs: seq<Hook>, i: nat)
    requires Linked(hs) && i < |hs|
    ensures hs[i].next == HookAt(hs, i + 1)
  {
    if i > 0 {
      LinkedAt(hs[1..], i - 1);
    }
  }

  /** A linked chain ends in null, so it holds no hook twice. */
  lemma {:induction false} LinkedDistinct(hs: seq<Hook>, i: nat, j: nat)
    requires Linked(hs) && i < j < |hs|
    ensures hs[i] != hs[j]
    decreases |hs| - j
  {
    if hs[i] == hs[j] {
      LinkedAt(hs, i);
      LinkedAt(hs, j);
      if j < |hs| - 1 {
        LinkedDistinct(hs, i + 1, j + 1);
      }
    }
  }

  /** The hooks of a chain: valid and each linked to the next. */
  ghost predicate WellFormed(hs: seq<Hook>)
    reads hs`next
  {
    AllValid(hs) && Linked(hs)
  }

  /**
   * add_hook: a new hook whose `m_next` is the head of a chain heads a
   * chain whose values are its own followed by the old chain's.
   */
  lemma ChainCons(h: Hook, hs: seq<Hook>)
    requires WellFormed(hs) && h.Valid()
    requires h.next == HookAt(hs, 0)
    ensures WellFormed([h] + hs)
    ensures States([h] + hs) == [h.State()] + States(hs)
  {
    assert ([h] + hs)[1..] == hs;
  }

  /** The hook at `i` takes the line when it matches and no newer one does. */
  lemma FirstMatchAt(chain: seq<HookState>, line: seq<byte>, i: nat)
    requires i < |chain| && Matches(chain[i].prefix, line)
    requires forall j | 0 <= j < i :: !Matches(chain[j].prefix, line)
    ensures FirstMatch(chain, line) == Some(i)
  {
  }

  /**
   * The loop of wait_resp over `m_hook_chain`: each hook, newest first, is
   * offered the line until one takes it. `before` holds the hooks' values
   * on entry; on exit each hook holds what Dispatch gives it.
   */
  method OfferAlong(chain: Hook?, ghost hs: seq<Hook>, ghost before: seq<HookState>, line: seq<byte>)
    requires Linked(hs) && AllValid(hs) && chain == HookAt(hs, 0)
    requires |before| == |hs| && forall j | 0 <= j < |hs| :: before[j] == hs[j].State()
    modifies hs`buff
    ensures forall j | 0 <= j < |hs| :: hs[j].buff == Dispatch(before, line)[j].capture
  {
    var h := chain;
    ghost var i := 0;
    while h != null
      invariant Linked(hs)
      invariant 0 <= i <= |hs| && h == HookAt(hs, i)
      invariant forall j | 0 <= j < i :: !Matches(before[j].prefix, line)
      invariant forall j | 0 <= j < |hs| :: hs[j].buff == before[j].capture
      decreases |hs| - i
    {
      var took := h.Offer(line);
      if took {
        forall j | 0 <= j < |hs| && j != i ensures hs[j].buff == before[j].capture {
          if j < i { LinkedDistinct(hs, j, i); } else { LinkedDistinct(hs, i, j); }
        }
        FirstMatchAt(before, line, i);
        break;
      }
      assert !Matches(before[i].prefix, line);
      LinkedAt(hs, i);
      h := h.next;
      i := i + 1;
    }
  }
}
