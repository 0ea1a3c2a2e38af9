/**
 * The key state of `AesUtils`: one default key, always sixteen characters,
 * replaced only through a guarded setter.
 */
module AesUtils {
  import opened Optional

  const INITIAL_KEY: string := "HANDY_SECRET_KEY"
  const KEY_LENGTH: nat := 16

  /** The two messages `setDEFAULT_KEY` hands to `LogUtils.d` when it refuses a key. */
  const MSG_EMPTY: string := "密钥为空"
  const MSG_LENGTH: string := "密钥长度必须为16位"

  /** `EmptyUtils.isEmpty` on a string: null or of length zero. */
  predicate IsEmpty(s: Option<string>) {
    s.None? || |s.value| == 0
  }

  /** The key after one `setDEFAULT_KEY(input)` on a store holding `current`. */
  function NextKey(current: string, input: Option<string>): (r: string)
    ensures IsEmpty(input) ==> r == current
    ensures !IsEmpty(input) && |input.value| != KEY_LENGTH ==> r == current
    ensures !IsEmpty(input) && |input.value| == KEY_LENGTH ==> r == input.value
  {
    if IsEmpty(input) then current
    else if |input.value| != KEY_LENGTH then current
    else input.value
  }

  /** The diagnostic `setDEFAULT_KEY(input)` logs, if any. */
  function Diagnostic(input: Option<string>): (d: Option<string>)
    ensures d.None? <==> !IsEmpty(input) && |input.value| == KEY_LENGTH
    ensures IsEmpty(input) ==> d == Some(MSG_EMPTY)
  {
    if IsEmpty(input) then Some(MSG_EMPTY)
    else if |input.value| != KEY_LENGTH then Some(MSG_LENGTH)
    else None
  }

  /** The key after a whole sequence of `setDEFAULT_KEY` calls, in order. */
  function KeyAfter(current: string, inputs: seq<Option<string>>): string
    decreases |inputs|
  {
    if inputs == [] then current else KeyAfter(NextKey(current, inputs[0]), inputs[1..])
  }

  /** The initial key already has the required length. */
  lemma InitialKeyLength()
    ensures |INITIAL_KEY| == KEY_LENGTH
  {
  }

  /** A setter call either keeps the key or installs its own sixteen-character input. */
  lemma NextKeyKeepsLength(current: string, input: Option<string>)
    requires |current| == KEY_LENGTH
    ensures |NextKey(current, input)| == KEY_LENGTH
    ensures NextKey(current, input) == current || input == Some(NextKey(current, input))
  {
  }

  /** After any sequence of setter calls from the initial key, the key is sixteen characters long. */
  lemma {:induction false} KeyAfterKeepsLength(current: string, inputs: seq<Option<string>>)
    requires |current| == KEY_LENGTH
    ensures |KeyAfter(current, inputs)| == KEY_LENGTH
    ensures KeyAfter(current, inputs) == current
         || exists i :: 0 <= i < |inputs| && inputs[i] == Some(KeyAfter(current, inputs))
    decreases |inputs|
  {
    if inputs != [] {
      var next := NextKey(current, inputs[0]);
      NextKeyKeepsLength(current, inputs[0]);
      KeyAfterKeepsLength(next, inputs[1..]);
      var k := KeyAfter(current, inputs);
      if k != next {
        var i :| 0 <= i < |inputs[1..]| && inputs[1..][i] == Some(k);
        assert inputs[i + 1] == Some(k);
      } else if k != current {
        assert inputs[0] == Some(k);
      }
    }
  }

  /** Refused inputs change nothing: a run of them leaves whatever key is installed. */
  lemma {:induction false} RefusedInputsKeepKey(current: string, inputs: seq<Option<string>>)
    requires forall i :: 0 <= i < |inputs| ==> Diagnostic(inputs[i]).Some?
    ensures KeyAfter(current, inputs) == current
    decreases |inputs|
  {
    if inputs != [] {
      RefusedInputsKeepKey(current, inputs[1..]);
    }
  }

  /** The last accepted key wins: a sixteen-character input followed only by refused ones stays. */
  lemma LastAcceptedKeyWins(current: string, k: string, refused: seq<Option<string>>)
    requires |k| == KEY_LENGTH
    requires forall i :: 0 <= i < |refused| ==> Diagnostic(refused[i]).Some?
    ensures KeyAfter(current, [Some(k)] + refused) == k
  {
    var inputs := [Some(k)] + refused;
    assert inputs[0] == Some(k) && inputs[1..] == refused;
    RefusedInputsKeepKey(k, refused);
  }

  /** The static `DEFAULT_KEY` of `AesUtils`. */
  class KeyStore {
    var key: string

    ghost predicate Valid()
      reads this
    {
      |key| == KEY_LENGTH
    }

    constructor ()
      ensures key == INITIAL_KEY
      ensures Valid()
    {
      key := INITIAL_KEY;
    }

    /** `getDEFAULT_KEY`. */
    method GetDefaultKey() returns (k: string)
      requires Valid()
      ensures k == key && |k| == KEY_LENGTH
    {
      k := key;
    }

    /** `setDEFAULT_KEY`: stores a sixteen-character key, otherwise returns the message it logs. */
    method SetDefaultKey(input: Option<string>) returns (logged: Option<string>)
      requires Valid()
      modifies this
      ensures Valid()
      ensures key == NextKey(old(key), input)
      ensures logged == Diagnostic(input)
    {
      if input.None? || |input.value| == 0 {
        logged := Some(MSG_EMPTY);
      } else if |input.value| != 16 {
        logged := Some(MSG_LENGTH);
      } else {
        key := input.value;
        logged := None;
      }
    }
  }
}
