/** Food plate records, the request bodies the dashboard sends for them, and the
    list operations it applies to its local copy of the collection: the lookup by
    id that `findIndex` performs and the removal by id that `filter` performs. */
module Foods {

  /** A menu item as the server stores it (`IFoodPlate`). The text fields are
      opaque; `price` is text, not a number. */
  datatype Food = Food(id: int, name: string, image: string, price: string,
                       description: string, available: bool)

  /** What the add and edit forms hand over: a food without `id` and `available`. */
  datatype FoodInput = FoodInput(name: string, image: string, price: string, description: string)

  datatype Option<T> = None | Some(value: T)

  /** A JSON request body. A field that is `undefined` at the call site is `None`:
      it is left out of the JSON that goes to the server. */
  datatype Body = Body(id: Option<int>, name: string, image: string, price: string,
                       description: string, available: Option<bool>)

  /** The requests to the `/foods` resource. The target of a PUT is `None` when
      the path was built from an undefined id (`/foods/undefined`). */
  datatype Request =
    | GetAll
    | Post(body: Body)
    | Put(target: Option<int>, body: Body)
    | Delete(removed: int)

  /** How a request ends: the promise is rejected (a transport failure or a
      non-2xx status), or it resolves with the response's data. */
  datatype Reply<T> = Failed | Ok(data: T)

  /** How a request ends when only the response's HTTP status is read: the
      promise is rejected, or it resolves with that status. */
  datatype StatusReply = Rejected | Responded(status: int)

  // ---------------------------------------------------------------------------
  // Request bodies
  // ---------------------------------------------------------------------------

  /** The form fields a body carries. */
  function InputOf(b: Body): FoodInput {
    FoodInput(b.name, b.image, b.price, b.description)
  }

  /** The JSON of a whole record, every field present. */
  function BodyOf(f: Food): Body {
    Body(Some(f.id), f.name, f.image, f.price, f.description, Some(f.available))
  }

  /** The id an edit selection stands for; the empty selection has none. */
  function SelectedId(selection: Option<Food>): (id: Option<int>)
    ensures id.Some? <==> selection.Some?
    ensures selection.Some? ==> id.value == selection.value.id
  {
    match selection
    case None => None
    case Some(f) => Some(f.id)
  }

  /** Body of the POST that creates a food: the caller's fields, with `available`
      forced to true and no id (the server assigns it). */
  function AddBody(input: FoodInput): (b: Body)
    ensures InputOf(b) == input
    ensures b.id == None && b.available == Some(true)
  {
    Body(None, input.name, input.image, input.price, input.description, Some(true))
  }

  /** Body of the PUT that saves the edit form: the form's fields, and the
      availability of the record being edited, not anything from the form. */
  function UpdateBody(input: FoodInput, selection: Option<Food>): (b: Body)
    ensures InputOf(b) == input && b.id == None
    ensures selection.Some? ==> b.available == Some(selection.value.available)
    ensures selection.None? ==> b.available == None
  {
    Body(None, input.name, input.image, input.price, input.description,
         match selection
         case None => None
         case Some(f) => Some(f.available))
  }

  /** Body of the PUT that toggles availability: the whole record, id included,
      with `available` negated and every other field as it was. */
  function ToggleBody(f: Food): (b: Body)
    ensures b == BodyOf(f.(available := !f.available))
    ensures b.available != BodyOf(f).available
    ensures b.(available := BodyOf(f).available) == BodyOf(f)
  {
    Body(Some(f.id), f.name, f.image, f.price, f.description, Some(!f.available))
  }

  // ---------------------------------------------------------------------------
  // Lookup by id (`findIndex`)
  // ---------------------------------------------------------------------------

  predicate HasId(s: seq<Food>, id: int) {
    exists j :: 0 <= j < |s| && s[j].id == id
  }

  /** The position of the first record with the given id, or -1 when there is none. */
  function FirstIndex(s: seq<Food>, id: int): (i: int)
    ensures -1 <= i < |s|
    ensures i == -1 <==> !HasId(s, id)
    ensures 0 <= i ==> s[i].id == id && forall j :: 0 <= j < i ==> s[j].id != id
  {
    if s == [] then -1
    else if s[0].id == id then 0
    else
      var k := FirstIndex(s[1..], id);
      assert forall j :: 0 < j < |s| ==> s[j] == s[1..][j - 1];
      if k == -1 then -1 else k + 1
  }

  /** The linear scan `findIndex` runs over the list. */
  method FindIndex(s: seq<Food>, id: int) returns (index: int)
    ensures index == FirstIndex(s, id)
  {
    index := 0;
    while index < |s| && s[index].id != id
      invariant 0 <= index <= |s|
      invariant forall j :: 0 <= j < index ==> s[j].id != id
    {
      index := index + 1;
    }
    if index == |s| {
      index := -1;
    }
  }

  // ---------------------------------------------------------------------------
  // Removal by id (`filter`)
  // ---------------------------------------------------------------------------

  /** The records whose id differs from `id`, in their original order. Every
      record with that id goes, not only the first. */
  function WithoutId(s: seq<Food>, id: int): (r: seq<Food>)
    ensures |r| <= |s|
    ensures forall f :: f in r <==> f in s && f.id != id
  {
    if s == [] then []
    else
      assert forall f :: f in s <==> f == s[0] || f in s[1..];
      if s[0].id == id then WithoutId(s[1..], id)
      else [s[0]] + WithoutId(s[1..], id)
  }

  /** How many records carry the given id. */
  function CountId(s: seq<Food>, id: int): nat {
    if s == [] then 0
    else (if s[0].id == id then 1 else 0) + CountId(s[1..], id)
  }

  /** `r` is `s` with some positions dropped and the rest kept in order. */
  predicate IsSubsequence(r: seq<Food>, s: seq<Food>)
    decreases |s|
  {
    r == [] ||
    (s != [] && ((r[0] == s[0] && IsSubsequence(r[1..], s[1..])) || IsSubsequence(r, s[1..])))
  }

  /** No two records share an id. The page keys its rendered list by id, but
      no handler enforces this. */
  predicate UniqueIds(s: seq<Food>) {
    forall i, j :: 0 <= i < j < |s| ==> s[i].id != s[j].id
  }

  /** Removal keeps the order of what stays: the result is a subsequence. */
  lemma {:induction false} WithoutIdIsSubsequence(s: seq<Food>, id: int)
    ensures IsSubsequence(WithoutId(s, id), s)
  {
    if s != [] {
      WithoutIdIsSubsequence(s[1..], id);
      var r := WithoutId(s, id);
      if s[0].id != id {
        assert r[0] == s[0] && r[1..] == WithoutId(s[1..], id);
      }
    }
  }

  /** Exactly the matching records go: the length drops by their count. */
  lemma {:induction false} WithoutIdLength(s: seq<Food>, id: int)
    ensures |WithoutId(s, id)| == |s| - CountId(s, id)
  {
    if s != [] {
      WithoutIdLength(s[1..], id);
    }
  }

  /** The count is positive exactly when some record carries the id. */
  lemma {:induction false} CountIdPositive(s: seq<Food>, id: int)
    ensures CountId(s, id) > 0 <==> HasId(s, id)
  {
    if s != [] {
      CountIdPositive(s[1..], id);
      assert forall j :: 0 < j < |s| ==> s[j] == s[1..][j - 1];
      if HasId(s[1..], id) {
        var j :| 0 <= j < |s[1..]| && s[1..][j].id == id;
        assert s[j + 1].id == id;
      }
    }
  }

  /** When no record carries the id, removal leaves the list exactly as it was. */
  lemma {:induction false} WithoutIdAbsent(s: seq<Food>, id: int)
    requires !HasId(s, id)
    ensures WithoutId(s, id) == s
  {
    if s != [] {
      assert !HasId(s[1..], id) by {
        forall j | 0 <= j < |s[1..]| ensures s[1..][j].id != id {
          assert s[1..][j] == s[j + 1];
        }
      }
      WithoutIdAbsent(s[1..], id);
      assert s[0].id != id;
      assert s == [s[0]] + s[1..];
    }
  }

  /** Removal works piecewise: removing from a concatenation is concatenating
      the removals. With the one-element cases this pins the filter down. */
  lemma {:induction false} WithoutIdConcat(a: seq<Food>, b: seq<Food>, id: int)
    ensures WithoutId(a + b, id) == WithoutId(a, id) + WithoutId(b, id)
  {
    if a == [] {
      assert a + b == b;
    } else {
      assert (a + b)[0] == a[0];
      assert (a + b)[1..] == a[1..] + b;
      WithoutIdConcat(a[1..], b, id);
    }
  }

  /** Removing twice is removing once. */
  lemma WithoutIdIdempotent(s: seq<Food>, id: int)
    ensures WithoutId(WithoutId(s, id), id) == WithoutId(s, id)
  {
    var r := WithoutId(s, id);
    assert !HasId(r, id) by {
      forall j | 0 <= j < |r| ensures r[j].id != id {
        assert r[j] in r;
      }
    }
    WithoutIdAbsent(r, id);
  }

  /** Replacing the first record with a given id by one with the same id, then
      removing that id, gives what removing it directly gives: an update never
      survives a later delete of the same id. */
  lemma ReplaceThenRemove(s: seq<Food>, id: int, r: Food)
    requires HasId(s, id) && r.id == id
    ensures WithoutId(s[FirstIndex(s, id) := r], id) == WithoutId(s, id)
  {
    var i := FirstIndex(s, id);
    var t := s[i := r];
    WithoutIdSplit(s, i, id);
    WithoutIdSplit(t, i, id);
    assert t[..i] == s[..i] && t[i + 1..] == s[i + 1..];
  }

  /** With unique ids, removal by `filter` drops exactly the record that
      `findIndex` finds, and nothing else. */
  lemma RemoveUniqueIsSplice(s: seq<Food>, id: int)
    requires UniqueIds(s) && HasId(s, id)
    ensures var i := FirstIndex(s, id); WithoutId(s, id) == s[..i] + s[i + 1..]
  {
    var i := FirstIndex(s, id);
    var before, after := s[..i], s[i + 1..];
    WithoutIdSplit(s, i, id);
    NoIdBefore(s, i, id);
    WithoutIdAbsent(before, id);
    NoIdAfter(s, i);
    WithoutIdAbsent(after, id);
  }

  /** Removal around one position: what goes before it, then it, then what goes after. */
  lemma WithoutIdSplit(s: seq<Food>, i: int, id: int)
    requires 0 <= i < |s| && s[i].id == id
    ensures WithoutId(s, id) == WithoutId(s[..i], id) + WithoutId(s[i + 1..], id)
  {
    var before, rest, after := s[..i], s[i..], s[i + 1..];
    assert s == before + rest;
    WithoutIdConcat(before, rest, id);
    assert rest == [s[i]] + after;
    WithoutIdConcat([s[i]], after, id);
    assert [s[i]][1..] == [];
  }

  lemma NoIdBefore(s: seq<Food>, i: int, id: int)
    requires 0 <= i <= |s| && forall j :: 0 <= j < i ==> s[j].id != id
    ensures !HasId(s[..i], id)
  {
    forall j | 0 <= j < i ensures s[..i][j].id != id {
      assert s[..i][j] == s[j];
    }
  }

  lemma NoIdAfter(s: seq<Food>, i: int)
    requires UniqueIds(s) && 0 <= i < |s|
    ensures !HasId(s[i + 1..], s[i].id)
  {
    var after := s[i + 1..];
    forall j | 0 <= j < |after| ensures after[j].id != s[i].id {
      assert after[j] == s[i + 1 + j];
    }
  }

  /** Removal keeps ids unique. */
  lemma {:induction false} WithoutIdKeepsUnique(s: seq<Food>, id: int)
    requires UniqueIds(s)
    ensures UniqueIds(WithoutId(s, id))
  {
    if s != [] {
      assert UniqueIds(s[1..]) by {
        forall i, j | 0 <= i < j < |s[1..]| ensures s[1..][i].id != s[1..][j].id {
          assert s[1..][i] == s[i + 1] && s[1..][j] == s[j + 1];
        }
      }
      WithoutIdKeepsUnique(s[1..], id);
      if s[0].id != id {
        var t := WithoutId(s[1..], id);
        var r := [s[0]] + t;
        forall i, j | 0 <= i < j < |r| ensures r[i].id != r[j].id {
          if i == 0 {
            assert r[j] == t[j - 1] && t[j - 1] in s[1..];
            var k :| 0 <= k < |s[1..]| && s[1..][k] == t[j - 1];
            assert s[k + 1] == r[j];
          } else {
            assert r[i] == t[i - 1] && r[j] == t[j - 1];
          }
        }
      }
    }
  }

  /** Appending a record whose id is new keeps ids unique. */
  lemma AppendKeepsUnique(s: seq<Food>, r: Food)
    requires UniqueIds(s) && !HasId(s, r.id)
    ensures UniqueIds(s + [r])
  {
    forall i, j | 0 <= i < j < |s + [r]| ensures (s + [r])[i].id != (s + [r])[j].id {
      if j == |s| {
        assert (s + [r])[i] == s[i];
      } else {
        assert (s + [r])[i] == s[i] && (s + [r])[j] == s[j];
      }
    }
  }

  /** Replacing the found record by one with the same id keeps ids unique. */
  lemma ReplaceKeepsUnique(s: seq<Food>, id: int, r: Food)
    requires UniqueIds(s) && HasId(s, id) && r.id == id
    ensures UniqueIds(s[FirstIndex(s, id) := r])
  {
  }
}
