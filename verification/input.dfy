/**
 * The keyboard filter.  A key press names a heading; the handler stores it
 * as the pending heading unless it points straight back against the heading
 * the snake last moved in (the committed heading).  Key presses that arrive
 * between two ticks are not queued: each overwrites the pending heading.
 */
module Input {
  import opened Grid

  datatype Option<T> = None | Some(value: T)

  /** The heading an arrow key names; any other key names none. */
  function ArrowKey(key: string): (r: Option<Direction>)
    ensures r.Some? <==> key in ["ArrowUp", "ArrowDown", "ArrowLeft", "ArrowRight"]
  {
    if key == "ArrowUp" then Some(Up)
    else if key == "ArrowDown" then Some(Down)
    else if key == "ArrowLeft" then Some(Left)
    else if key == "ArrowRight" then Some(Right)
    else None
  }

  /** The key that names a heading. */
  function KeyName(d: Direction): (key: string)
    ensures ArrowKey(key) == Some(d)
  {
    match d
    case Up => "ArrowUp"
    case Down => "ArrowDown"
    case Left => "ArrowLeft"
    case Right => "ArrowRight"
  }

  /** A key press the handler honours while `committed` is the heading the
      snake last moved in. */
  predicate Accepted(committed: Direction, key: string) {
    ArrowKey(key).Some? && ArrowKey(key).value != Opposite(committed)
  }

  /** The pending heading after the keydown handler has seen `key`, written
      as the handler's chain of tests.  Its contract says the chain takes the
      named heading exactly when it is not the reverse of `committed`. */
  function Requested(committed: Direction, pending: Direction, key: string): (r: Direction)
    ensures Accepted(committed, key) ==> r == ArrowKey(key).value
    ensures !Accepted(committed, key) ==> r == pending
    ensures r != pending ==> r != Opposite(committed)
  {
    if key == "ArrowUp" && committed != Down then Up
    else if key == "ArrowDown" && committed != Up then Down
    else if key == "ArrowLeft" && committed != Right then Left
    else if key == "ArrowRight" && committed != Left then Right
    else pending
  }

  /** The pending heading after the key presses `keys`, in order, all seen
      before the next tick (so `committed` does not change between them). */
  function Coalesce(committed: Direction, pending: Direction, keys: seq<string>): Direction
    decreases |keys|
  {
    if keys == [] then pending
    else Requested(committed, Coalesce(committed, pending, keys[..|keys| - 1]), keys[|keys| - 1])
  }

  /** However many keys arrive between two ticks, the pending heading never
      becomes the reverse of the committed one, provided it was not already. */
  lemma {:induction false} CoalesceNeverReverses(committed: Direction, pending: Direction, keys: seq<string>)
    requires pending != Opposite(committed)
    ensures Coalesce(committed, pending, keys) != Opposite(committed)
    decreases |keys|
  {
    if keys != [] {
      CoalesceNeverReverses(committed, pending, keys[..|keys| - 1]);
    }
  }

  /** When no key press between two ticks is honoured, the pending heading
      stays as it was. */
  lemma {:induction false} CoalesceNoneHonoured(committed: Direction, pending: Direction, keys: seq<string>)
    requires forall i :: 0 <= i < |keys| ==> !Accepted(committed, keys[i])
    ensures Coalesce(committed, pending, keys) == pending
    decreases |keys|
  {
    if keys != [] {
      var front := keys[..|keys| - 1];
      assert forall i :: 0 <= i < |front| ==> front[i] == keys[i];
      CoalesceNoneHonoured(committed, pending, front);
    }
  }

  /** Only the last honoured key press counts: if press `i` is honoured and
      none after it is, the pending heading is the one press `i` names. */
  lemma {:induction false} CoalesceLastWins(committed: Direction, pending: Direction, keys: seq<string>, i: nat)
    requires i < |keys| && Accepted(committed, keys[i])
    requires forall j :: i < j < |keys| ==> !Accepted(committed, keys[j])
    ensures Coalesce(committed, pending, keys) == ArrowKey(keys[i]).value
    decreases |keys|
  {
    if i < |keys| - 1 {
      var front := keys[..|keys| - 1];
      assert front[i] == keys[i];
      forall j | i < j < |front| ensures !Accepted(committed, front[j]) {
        assert front[j] == keys[j];
      }
      CoalesceLastWins(committed, pending, front, i);
    }
  }
}
