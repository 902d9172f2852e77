/**
 * The application's instance registry and store: the ordered list of live
 * instance ids, the id counter, and the map from id to its record.
 */
module Registry {
  import opened Wrappers
  import opened FormStates

  predicate NoDuplicates(s: seq<nat>) {
    forall i, j :: 0 <= i < j < |s| ==> s[i] != s[j]
  }

  function Ids(s: seq<nat>): set<nat> {
    set x | x in s
  }

  /** `s` with every occurrence of `x` taken out, the others in their original order. */
  function Without(s: seq<nat>, x: nat): (r: seq<nat>)
    ensures forall y :: y in r <==> y in s && y != x
    ensures |r| <= |s|
    ensures x !in s ==> r == s
  {
    if s == [] then []
    else if s[0] == x then Without(s[1..], x)
    else [s[0]] + Without(s[1..], x)
  }

  /** Removing the element at a position of a duplicate-free list removes exactly that id. */
  lemma {:induction false} RemoveAtIsWithout(s: seq<nat>, p: nat)
    requires NoDuplicates(s) && p < |s|
    ensures s[..p] + s[p + 1..] == Without(s, s[p])
  {
    if p == 0 {
      assert s[..0] + s[1..] == s[1..];
      assert s[0] !in s[1..];
    } else {
      assert NoDuplicates(s[1..]);
      RemoveAtIsWithout(s[1..], p - 1);
      assert s[..p] + s[p + 1..] == [s[0]] + (s[1..][..p - 1] + s[1..][p..]);
    }
  }

  lemma WithoutIds(s: seq<nat>, x: nat)
    ensures Ids(Without(s, x)) == Ids(s) - {x}
  {
  }

  lemma {:induction false} WithoutKeepsNoDuplicates(s: seq<nat>, x: nat)
    requires NoDuplicates(s)
    ensures NoDuplicates(Without(s, x))
  {
    if s != [] {
      assert NoDuplicates(s[1..]);
      WithoutKeepsNoDuplicates(s[1..], x);
      assert s[0] !in s[1..];
    }
  }

  /**
   * The delete control is only offered at list positions above 0, so an offered
   * delete never disturbs the instance shown first.
   */
  lemma OfferedDeleteKeepsFirst(s: seq<nat>, index: nat)
    requires NoDuplicates(s) && 0 < index < |s|
    ensures Without(s, s[index]) != [] && Without(s, s[index])[0] == s[0]
  {
  }

  /** `forms.iter().position(|&form_id| form_id == id)`: the first position holding `id`. */
  method Position(forms: seq<nat>, id: nat) returns (pos: Option<nat>)
    ensures pos.Some? ==> pos.value < |forms| && forms[pos.value] == id && id !in forms[..pos.value]
    ensures pos.None? <==> id !in forms
  {
    var i := 0;
    while i < |forms|
      invariant 0 <= i <= |forms|
      invariant id !in forms[..i]
    {
      if forms[i] == id {
        return Some(i);
      }
      i := i + 1;
    }
    assert forms[..i] == forms;
    return None;
  }

  /** A row of the rendered list: an instance id and whether a delete control is offered for it. */
  datatype Row = Row(id: nat, deletable: bool)

  class App {
    /** Live instance ids, in creation order (the display order). */
    var forms: seq<nat>
    /** The next id to hand out; never decreases. */
    var nextId: nat
    /** The record of every live instance. */
    var formStates: map<nat, FormState>
    /** Ids that were live once and have been deleted. */
    ghost var retired: set<nat>

    /**
     * Every id handed out is below the counter, no id is listed twice, the
     * store holds a record for exactly the listed ids, and no deleted id is live.
     */
    ghost predicate Valid()
      reads this
    {
      && (forall x :: x in forms ==> x < nextId)
      && NoDuplicates(forms)
      && formStates.Keys == Ids(forms)
      && (forall r :: r in retired ==> r < nextId)
      && retired !! Ids(forms)
    }

    /** Start-up: one instance with id 0 and the default record, the counter at 1. */
    constructor ()
      ensures Valid()
      ensures forms == [0] && nextId == 1
      ensures formStates == map[0 := Default()]
      ensures retired == {}
    {
      forms := [0];
      nextId := 1;
      formStates := map[0 := Default()];
      retired := {};
    }

    /** The add button: a fresh id is appended and given the default record. */
    method AddForm() returns (newId: nat)
      requires Valid()
      modifies this
      ensures Valid()
      ensures newId == old(nextId) && nextId == old(nextId) + 1
      ensures forms == old(forms) + [newId]
      ensures formStates == old(formStates)[newId := Default()]
      ensures newId !in old(forms) && newId !in old(retired)
      ensures retired == old(retired)
    {
      newId := nextId;
      forms := forms + [newId];
      formStates := formStates[newId := Default()];
      nextId := nextId + 1;
      assert Ids(forms) == Ids(old(forms)) + {newId};
    }

    /**
     * The delete callback: `id` leaves the list (the others keep their order)
     * and its record leaves the store; deleting an absent id changes nothing.
     */
    method DeleteForm(id: nat)
      requires Valid()
      modifies this
      ensures Valid()
      ensures forms == Without(old(forms), id)
      ensures formStates == old(formStates) - {id}
      ensures id !in old(forms) ==> forms == old(forms) && formStates == old(formStates)
      ensures nextId == old(nextId)
      ensures retired == old(retired) + (if id in old(forms) then {id} else {})
    {
      var pos := Position(forms, id);
      if pos.Some? {
        RemoveAtIsWithout(forms, pos.value);
        WithoutKeepsNoDuplicates(forms, id);
        forms := forms[..pos.value] + forms[pos.value + 1..];
        retired := retired + {id};
      }
      formStates := formStates - {id};
      WithoutIds(old(forms), id);
    }

    /** `states.get_mut(&id)`: applies `mutate` to the record of `id` if it is present, else nothing. */
    method UpdateState(id: nat, mutate: FormState -> FormState)
      modifies this`formStates
      ensures id in old(formStates) ==> formStates == old(formStates)[id := mutate(old(formStates)[id])]
      ensures id !in old(formStates) ==> formStates == old(formStates)
      ensures formStates.Keys == old(formStates).Keys
      ensures old(Valid()) ==> Valid()
    {
      if id in formStates {
        formStates := formStates[id := mutate(formStates[id])];
      }
    }

    /** The record shown for `id`: the stored one, or the default when the store has none. */
    function StateOf(id: nat): (s: FormState)
      reads this
      ensures id in formStates ==> s == formStates[id]
      ensures id !in formStates ==> s == Default()
    {
      if id in formStates then formStates[id] else Default()
    }

    /** The rendered list: one row per live id, deletable exactly when not at position 0. */
    function Rows(): (rows: seq<Row>)
      reads this
      ensures |rows| == |forms|
      ensures forall i :: 0 <= i < |rows| ==> rows[i].id == forms[i] && (rows[i].deletable <==> i > 0)
    {
      seq(|forms|, i requires 0 <= i < |forms| reads this => Row(forms[i], i > 0))
    }
  }

  /** Start-up, then two adds: ids 0, 1, 2, each with its own default record, the last two deletable. */
  method AddTwice() returns (rows: seq<Row>)
    ensures rows == [Row(0, false), Row(1, true), Row(2, true)]
  {
    var app := new App();
    var a := app.AddForm();
    var b := app.AddForm();
    assert app.formStates == map[0 := Default(), 1 := Default(), 2 := Default()];
    rows := app.Rows();
  }
}
