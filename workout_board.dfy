/** The exercise list of the training page (`pages/app.js`): its progress
    counts and the drag-and-drop move of one card to another position. */
module WorkoutBoard {
  import opened Wrappers
  import opened Seqs

  /** One exercise card of the selected day. */
  datatype Card = Card(id: int, name: string, completed: bool)

  function IsDone(c: Card): bool { c.completed }

  /** `completedExercises`; `totalExercises` is the length of the list. */
  function CompletedExercises(workouts: seq<Card>): (n: nat)
    ensures n <= |workouts|
    ensures n == 0 <==> forall c :: c in workouts ==> !c.completed
    ensures n == |workouts| <==> forall c :: c in workouts ==> c.completed
  {
    FilterExtremes(workouts, IsDone);
    |Filter(workouts, IsDone)|
  }

  /** `s` with the element at `i` spliced out. */
  function Without<T>(s: seq<T>, i: nat): (r: seq<T>)
    requires i < |s|
    ensures |r| == |s| - 1
    ensures forall k :: 0 <= k < |r| ==> r[k] == s[if k < i then k else k + 1]
  {
    s[..i] + s[i + 1..]
  }

  /** `x` spliced into `s` so that it ends at index `i`. */
  function InsertAt<T>(s: seq<T>, i: nat, x: T): (r: seq<T>)
    requires i <= |s|
    ensures |r| == |s| + 1 && r[i] == x
    ensures forall k :: 0 <= k < |r| && k != i ==> r[k] == s[if k < i then k else k - 1]
  {
    s[..i] + [x] + s[i..]
  }

  /** The element at `from` moved so that it ends at `to`. */
  function Move<T>(s: seq<T>, from: nat, to: nat): (r: seq<T>)
    requires from < |s| && to < |s|
    ensures |r| == |s|
    ensures r[to] == s[from]
  {
    InsertAt(Without(s, from), to, s[from])
  }

  /** A move only reorders: the same elements, as often as before. */
  lemma MovePermutes<T>(s: seq<T>, from: nat, to: nat)
    requires from < |s| && to < |s|
    ensures multiset(Move(s, from, to)) == multiset(s)
  {
    var w := Without(s, from);
    assert s == s[..from] + [s[from]] + s[from + 1..];
    assert w == s[..from] + s[from + 1..];
    assert Move(s, from, to) == w[..to] + [s[from]] + w[to..];
    assert w == w[..to] + w[to..];
    assert multiset(w) == multiset(w[..to]) + multiset(w[to..]);
    assert multiset(Move(s, from, to)) == multiset(w) + multiset{s[from]};
    assert multiset(s) == multiset(s[..from]) + multiset{s[from]} + multiset(s[from + 1..]);
  }

  /** The moved element lands at `to`, and taking it out again gives the
      other elements in their old relative order. */
  lemma MoveLands<T>(s: seq<T>, from: nat, to: nat)
    requires from < |s| && to < |s|
    ensures Move(s, from, to)[to] == s[from]
    ensures Without(Move(s, from, to), to) == Without(s, from)
  {
    var r := Move(s, from, to);
    var w := Without(s, from);
    assert forall k :: 0 <= k < |w| ==> Without(r, to)[k] == w[k];
  }

  /** Dropping a card on its own place changes nothing. */
  lemma MoveInPlace<T>(s: seq<T>, i: nat)
    requires i < |s|
    ensures Move(s, i, i) == s
  {
    var r := Move(s, i, i);
    forall k | 0 <= k < |s| ensures r[k] == s[k] {
      if k != i {
        assert r[k] == Without(s, i)[if k < i then k else k - 1];
      }
    }
  }

  /** `copy.map(x => x.id)`. */
  function Ids(workouts: seq<Card>): (r: seq<int>)
    ensures |r| == |workouts| && forall k :: 0 <= k < |r| ==> r[k] == workouts[k].id
  {
    seq(|workouts|, k requires 0 <= k < |workouts| => workouts[k].id)
  }

  function IsDragged(dragged: Option<int>): Card -> bool
  {
    (c: Card) => dragged == Some(c.id)
  }

  /** The page state the drop handler reads and writes. */
  class Board {
    var workouts: seq<Card>
    var draggingId: Option<int>
    var dragOverIndex: Option<nat>

    constructor (workouts: seq<Card>)
      ensures this.workouts == workouts && draggingId == None && dragOverIndex == None
    {
      this.workouts := workouts;
      draggingId := None;
      dragOverIndex := None;
    }

    /** `onDrop` on the card at index `to`: `dragged` is the id carried by the
        drag (`None` when it is not a number). An unknown id changes nothing
        and persists nothing; otherwise the card moves to `to`, the drag
        markers are cleared and the new id order is what gets persisted. */
    method OnDrop(dragged: Option<int>, to: nat) returns (persisted: Option<seq<int>>)
      requires to < |workouts|
      modifies this
      ensures IndexWhere(old(workouts), IsDragged(dragged)).None? ==>
        persisted == None && workouts == old(workouts)
        && draggingId == old(draggingId) && dragOverIndex == old(dragOverIndex)
      ensures IndexWhere(old(workouts), IsDragged(dragged)).Some? ==>
        workouts == Move(old(workouts), IndexWhere(old(workouts), IsDragged(dragged)).value, to)
        && draggingId == None && dragOverIndex == None
        && persisted == Some(Ids(workouts))
    {
      var found := IndexWhere(workouts, IsDragged(dragged));
      if found.None? {
        return None;
      }
      var from := found.value;
      var copy := workouts;
      var moved := copy[from];
      copy := copy[..from] + copy[from + 1..];
      copy := copy[..to] + [moved] + copy[to..];
      workouts := copy;
      draggingId, dragOverIndex := None, None;
      persisted := Some(Ids(copy));
    }
  }
}
