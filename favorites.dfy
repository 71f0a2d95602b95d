/**
  Favorite events: the `Favorite` table holds (user, event) pairs, unique by
  `unique_together`, and `toggle_favorite` adds the pair when it is absent
  and deletes it when present.

  The table is a sequence of rows in insertion order; `created_at` only
  orders the listing and is not modelled.
*/
module Favorites {
  import opened Common

  datatype Favorite = Favorite(user: UserId, event: nat)

  /** `unique_together = ('user', 'event')`: no pair appears twice. */
  predicate Unique(rows: seq<Favorite>) {
    forall i, j :: 0 <= i < j < |rows| ==> rows[i] != rows[j]
  }

  /** The pairs in the table. */
  function Pairs(rows: seq<Favorite>): (s: set<Favorite>)
    ensures forall f :: f in s <==> f in rows
  {
    set f | f in rows
  }

  /** The position of `key` in `rows`, or `|rows|` when it is absent. */
  function Position(rows: seq<Favorite>, key: Favorite): (i: nat)
    ensures i <= |rows|
    ensures i < |rows| ==> rows[i] == key
    ensures forall j :: 0 <= j < i ==> rows[j] != key
  {
    if rows == [] then 0
    else if rows[0] == key then 0
    else 1 + Position(rows[1..], key)
  }

  /** The rows after a toggle of `key`: its row deleted when present,
      otherwise a row appended. */
  function Toggled(rows: seq<Favorite>, key: Favorite): (r: seq<Favorite>)
    ensures key in rows ==> |r| == |rows| - 1
    ensures key !in rows ==> r == rows + [key]
  {
    var i := Position(rows, key);
    if i < |rows| then rows[..i] + rows[i + 1..] else rows + [key]
  }

  /** A toggle keeps the pairs unique and adds or removes exactly `key`. */
  lemma ToggledPairs(rows: seq<Favorite>, key: Favorite)
    requires Unique(rows)
    ensures Unique(Toggled(rows, key))
    ensures Pairs(Toggled(rows, key)) ==
      if key in rows then Pairs(rows) - {key} else Pairs(rows) + {key}
  {
    var i := Position(rows, key);
    var r := Toggled(rows, key);
    if i < |rows| {
      assert r == rows[..i] + rows[i + 1..];
      forall j | 0 <= j < |r| ensures r[j] == (if j < i then rows[j] else rows[j + 1]) {
      }
      forall j, k | 0 <= j < k < |r| ensures r[j] != r[k] {
        var j' := if j < i then j else j + 1;
        var k' := if k < i then k else k + 1;
        assert r[j] == rows[j'] && r[k] == rows[k'] && j' < k';
      }
      forall f ensures f in r <==> f in rows && f != key {
        if f in r {
          var j :| 0 <= j < |r| && r[j] == f;
          var j' := if j < i then j else j + 1;
          assert rows[j'] == f && j' != i;
        }
        if f in rows && f != key {
          var j :| 0 <= j < |rows| && rows[j] == f;
          assert j != i;
          if j < i {
            assert r[j] == f;
          } else {
            assert r[j - 1] == f;
          }
        }
      }
    } else {
      forall j, k | 0 <= j < k < |r| ensures r[j] != r[k] {
        if k == |rows| {
          assert r[j] == rows[j];
        }
      }
    }
  }

  /** Toggling twice restores the set of favorites. */
  lemma ToggleTwiceRestores(rows: seq<Favorite>, key: Favorite)
    requires Unique(rows)
    ensures Unique(Toggled(Toggled(rows, key), key))
    ensures Pairs(Toggled(Toggled(rows, key), key)) == Pairs(rows)
  {
    ToggledPairs(rows, key);
    ToggledPairs(Toggled(rows, key), key);
  }

  class FavoriteTable {
    var rows: seq<Favorite>

    constructor Empty()
      ensures rows == []
    {
      rows := [];
    }

    predicate Valid()
      reads this
    {
      Unique(rows)
    }

    /** `toggle_favorite`: `get_or_create` the pair; if it already existed,
        delete it and answer false, otherwise answer true. */
    method Toggle(user: UserId, event: nat) returns (isFavorite: bool)
      requires Valid()
      modifies this
      ensures Valid()
      ensures isFavorite <==> Favorite(user, event) !in old(rows)
      ensures rows == Toggled(old(rows), Favorite(user, event))
      ensures isFavorite <==> Favorite(user, event) in rows
    {
      var key := Favorite(user, event);
      ToggledPairs(rows, key);
      var i := 0;
      while i < |rows|
        invariant 0 <= i <= |rows|
        invariant forall j :: 0 <= j < i ==> rows[j] != key
      {
        if rows[i] == key {
          assert Position(rows, key) == i;
          rows := rows[..i] + rows[i + 1..];
          assert key !in Pairs(rows);
          return false;
        }
        i := i + 1;
      }
      rows := rows + [key];
      return true;
    }
  }
}
