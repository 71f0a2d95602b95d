/**
  Event ratings as `rating_create_or_update` accepts and stores them.

  The view strips the title, requires it non-empty, and requires the rating
  field to be present, made of digits, and between 1 and 5. It then
  overwrites the user's first rating of the event, if there is one, and
  otherwise creates a new row. The `Rating` table has no uniqueness
  constraint; the upsert is what keeps one rating per (user, event).
*/
module Ratings {
  import opened Common

  const TitleRequired := "El título es requerido"
  const RatingRequired := "Debes seleccionar una calificación"

  /** `rating_value` present, `isdigit()`, and `1 <= int(rating_value) <= 5`. */
  predicate AcceptedValue(ratingValue: Option<string>) {
    ratingValue.Some? && IsDigits(ratingValue.value) && 1 <= DigitsValue(ratingValue.value) <= 5
  }

  /** The checks of `rating_create_or_update`: `title` is the raw form value
      (an absent field reads as ""), `ratingValue` the raw rating field. */
  function RatingErrors(title: string, ratingValue: Option<string>): (errors: Errors)
    ensures errors.Keys <= {"title", "rating"}
    ensures "title" in errors <==> Strip(title) == []
    ensures "title" in errors ==> errors["title"] == TitleRequired
    ensures "rating" in errors <==> !AcceptedValue(ratingValue)
    ensures "rating" in errors ==> errors["rating"] == RatingRequired
    ensures ratingValue.None? || ratingValue.value == [] ==> "rating" in errors
  {
    var titleErrors := if Strip(title) == [] then map["title" := TitleRequired] else map[];
    if !AcceptedValue(ratingValue) then titleErrors["rating" := RatingRequired] else titleErrors
  }

  /** A digit string is worth 0 exactly when every digit is '0'. */
  lemma {:induction false} ZeroValueIffAllZeros(s: string)
    requires forall k :: 0 <= k < |s| ==> IsDigit(s[k])
    ensures DigitsValue(s) == 0 <==> forall k :: 0 <= k < |s| ==> s[k] == '0'
  {
    if s != [] {
      var init := s[..|s| - 1];
      ZeroValueIffAllZeros(init);
      if DigitsValue(s) == 0 {
        forall k | 0 <= k < |s| ensures s[k] == '0' {
          if k < |s| - 1 {
            assert s[k] == init[k];
          }
        }
      }
      if forall k :: 0 <= k < |s| ==> s[k] == '0' {
        assert forall k :: 0 <= k < |init| ==> init[k] == s[k];
      }
    }
  }

  /** The rating strings accepted are exactly a digit from '1' to '5',
      possibly after leading zeros ("3", "003"). */
  lemma {:induction false} AcceptedValueShape(v: string)
    ensures AcceptedValue(Some(v)) <==>
      |v| > 0 && (forall k :: 0 <= k < |v| - 1 ==> v[k] == '0') && '1' <= v[|v| - 1] <= '5'
  {
    if |v| > 0 && forall k :: 0 <= k < |v| ==> IsDigit(v[k]) {
      var init := v[..|v| - 1];
      assert forall k :: 0 <= k < |init| ==> init[k] == v[k];
      ZeroValueIffAllZeros(init);
      assert DigitsValue(v) == DigitsValue(init) * 10 + (v[|v| - 1] as int - '0' as int);
    }
  }

  datatype Rating = Rating(user: UserId, event: nat, title: string, text: string, value: int)

  predicate Matches(r: Rating, user: UserId, event: nat) {
    r.user == user && r.event == event
  }

  /** The position of the first rating of (user, event), or `|rows|`:
      `Rating.objects.filter(user=user, event=event).first()`. */
  function FirstOf(rows: seq<Rating>, user: UserId, event: nat): (i: nat)
    ensures i <= |rows|
    ensures i < |rows| ==> Matches(rows[i], user, event)
    ensures forall j :: 0 <= j < i ==> !Matches(rows[j], user, event)
  {
    if rows == [] then 0
    else if Matches(rows[0], user, event) then 0
    else 1 + FirstOf(rows[1..], user, event)
  }

  /** How many ratings (user, event) has. */
  function CountOf(rows: seq<Rating>, user: UserId, event: nat): (c: nat)
    ensures c <= |rows|
    ensures c == 0 <==> forall j :: 0 <= j < |rows| ==> !Matches(rows[j], user, event)
  {
    if rows == [] then 0
    else
      CountOf(rows[..|rows| - 1], user, event)
      + (if Matches(rows[|rows| - 1], user, event) then 1 else 0)
  }

  /** The table after the upsert of `r`: the first rating of its user and
      event overwritten, or `r` appended when there is none. */
  function Upserted(rows: seq<Rating>, r: Rating): (result: seq<Rating>)
    ensures |result| == |rows| || result == rows + [r]
  {
    var i := FirstOf(rows, r.user, r.event);
    if i < |rows| then rows[i := r] else rows + [r]
  }

  /** Replacing a row by one for the same (user, event) keeps every count. */
  lemma {:induction false} CountOfReplace(rows: seq<Rating>, i: nat, r: Rating, user: UserId, event: nat)
    requires i < |rows| && rows[i].user == r.user && rows[i].event == r.event
    ensures CountOf(rows[i := r], user, event) == CountOf(rows, user, event)
  {
    var init := rows[..|rows| - 1];
    if i < |rows| - 1 {
      assert rows[i := r][..|rows| - 1] == init[i := r];
      CountOfReplace(init, i, r, user, event);
    } else {
      assert rows[i := r][..|rows| - 1] == init;
    }
  }

  /** The upsert never adds a second rating for the same user and event: it
      holds one afterwards when it held none, and as many as before otherwise;
      the counts of every other pair are unchanged. */
  lemma UpsertedCounts(rows: seq<Rating>, r: Rating, user: UserId, event: nat)
    ensures Matches(r, user, event) ==>
      CountOf(Upserted(rows, r), user, event) == if CountOf(rows, user, event) == 0 then 1 else CountOf(rows, user, event)
    ensures !Matches(r, user, event) ==> CountOf(Upserted(rows, r), user, event) == CountOf(rows, user, event)
  {
    var i := FirstOf(rows, r.user, r.event);
    if i < |rows| {
      CountOfReplace(rows, i, r, user, event);
    } else {
      assert (rows + [r])[..|rows|] == rows;
    }
  }

  /** After the upsert, the first rating of its user and event is the new one. */
  lemma UpsertedFirst(rows: seq<Rating>, r: Rating)
    ensures var result := Upserted(rows, r);
            var i := FirstOf(result, r.user, r.event);
            i < |result| && result[i] == r
  {
    var i := FirstOf(rows, r.user, r.event);
    var result := Upserted(rows, r);
    assert i < |result| && result[i] == r && Matches(result[i], r.user, r.event);
    assert forall j :: 0 <= j < i ==> result[j] == rows[j];
  }

  class RatingTable {
    var rows: seq<Rating>

    constructor Empty()
      ensures rows == []
    {
      rows := [];
    }

    /** `rating_create_or_update` on a POST: when the checks pass, the
        stripped title and text and the integer rating overwrite the user's
        first rating of the event or form a new one; otherwise nothing changes. */
    method CreateOrUpdate(user: UserId, event: nat, title: string, ratingValue: Option<string>,
                          text: string)
      returns (ok: bool, errors: Errors)
      modifies this
      ensures errors == RatingErrors(title, ratingValue)
      ensures ok <==> errors == map[]
      ensures !ok ==> rows == old(rows)
      ensures ok ==> ratingValue.Some? && IsDigits(ratingValue.value)
      ensures ok ==> rows == Upserted(old(rows), Rating(user, event, Strip(title), Strip(text),
                                                        DigitsValue(ratingValue.value)))
    {
      var i := 0;
      while i < |rows| && !Matches(rows[i], user, event)
        invariant 0 <= i <= |rows|
        invariant forall j :: 0 <= j < i ==> !Matches(rows[j], user, event)
      {
        i := i + 1;
      }
      assert i == FirstOf(rows, user, event);
      errors := RatingErrors(title, ratingValue);
      if errors != map[] {
        return false, errors;
      }
      var rating := Rating(user, event, Strip(title), Strip(text), DigitsValue(ratingValue.value));
      if i < |rows| {
        rows := rows[i := rating];
      } else {
        rows := rows + [rating];
      }
      ok := true;
    }
  }
}
