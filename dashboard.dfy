/** The dashboard page's state and its handlers. Each handler is one atomic
    step: it builds the request it sends from its inputs and the current state,
    and is handed the server's reply, from which it updates the list. */
module DashboardPage {
  import opened Foods

  class Dashboard {
    /** The plates on display, in display order. */
    var foods: seq<Food>
    /** The record the edit form works on; empty until one is picked. */
    var editingFood: Option<Food>
    var modalOpen: bool
    var editModalOpen: bool

    /** The page mounts with no plates, no selection and both modals closed. */
    constructor ()
      ensures foods == [] && editingFood == None
      ensures !modalOpen && !editModalOpen
    {
      foods := [];
      editingFood := None;
      modalOpen := false;
      editModalOpen := false;
    }

    /** GET /foods; when it answers, the list becomes the server's list as it is. */
    method LoadFoods(reply: Reply<seq<Food>>) returns (sent: Request)
      modifies this`foods
      ensures sent == GetAll
      ensures reply.Ok? ==> foods == reply.data
      ensures reply.Failed? ==> foods == old(foods)
    {
      sent := GetAll;
      if reply.Ok? {
        foods := reply.data;
      }
    }

    /** POST /foods with the form's fields and `available` set; the created
        record is appended once. A failure is only logged. */
    method HandleAddFood(food: FoodInput, reply: Reply<Food>) returns (sent: Request)
      modifies this`foods
      ensures sent == Post(AddBody(food))
      ensures reply.Ok? ==> |foods| == |old(foods)| + 1 && foods[..|old(foods)|] == old(foods)
                            && foods[|old(foods)|] == reply.data
      ensures reply.Failed? ==> foods == old(foods)
    {
      sent := Post(AddBody(food));
      if reply.Ok? {
        foods := foods + [reply.data];
      }
    }

    /** PUT /foods/{selected id} with the form's fields and the selection's
        availability. The answer replaces the first record with the selected id;
        when there is none (or nothing is selected) the list stays as it was. */
    method HandleUpdateFood(food: FoodInput, reply: Reply<Food>) returns (sent: Request)
      modifies this`foods
      ensures sent == Put(SelectedId(editingFood), UpdateBody(food, editingFood))
      ensures reply.Ok? && editingFood.Some? && HasId(old(foods), editingFood.value.id) ==>
        var i := FirstIndex(old(foods), editingFood.value.id);
        |foods| == |old(foods)| && foods[i] == reply.data &&
        forall j :: 0 <= j < |foods| && j != i ==> foods[j] == old(foods)[j]
      ensures !(reply.Ok? && editingFood.Some? && HasId(old(foods), editingFood.value.id)) ==>
        foods == old(foods)
    {
      sent := Put(SelectedId(editingFood), UpdateBody(food, editingFood));
      if reply.Ok? {
        // An empty selection has an undefined id, which equals no record's id.
        if editingFood.Some? {
          var index := FindIndex(foods, editingFood.value.id);
          if index >= 0 {
            foods := foods[index := reply.data];
          }
        }
      }
    }

    /** DELETE /foods/{id}; only a 204 answer removes, and it removes every
        record with that id. Any other status leaves the list alone. */
    method HandleDeleteFood(id: int, reply: StatusReply) returns (sent: Request)
      modifies this`foods
      ensures sent == Delete(id)
      ensures reply == Responded(204) ==> foods == WithoutId(old(foods), id)
      ensures reply != Responded(204) ==> foods == old(foods)
    {
      sent := Delete(id);
      if reply.Responded? && reply.status == 204 {
        foods := WithoutId(foods, id);
      }
    }

    /** PUT /foods/{id} with the first record of that id, availability negated;
        the answer replaces that record. The id must be on the list: the
        handler reads the record at the index it found without a check. */
    method HandleToggleAvailable(id: int, reply: Reply<Food>) returns (sent: Request)
      requires HasId(foods, id)
      modifies this`foods
      ensures var i := FirstIndex(old(foods), id);
        sent == Put(Some(id), ToggleBody(old(foods)[i])) &&
        (reply.Ok? ==> foods == old(foods)[i := reply.data]) &&
        (reply.Failed? ==> foods == old(foods))
      ensures |foods| == |old(foods)|
    {
      var index := FindIndex(foods, id);
      sent := Put(Some(id), ToggleBody(foods[index]));
      if reply.Ok? {
        foods := foods[index := reply.data];
      }
    }

    method ToggleModal()
      modifies this`modalOpen
      ensures modalOpen == !old(modalOpen)
    {
      modalOpen := !modalOpen;
    }

    method ToggleEditModal()
      modifies this`editModalOpen
      ensures editModalOpen == !old(editModalOpen)
    {
      editModalOpen := !editModalOpen;
    }

    /** Picks the record to edit and flips the edit modal. */
    method HandleEditFood(food: Food)
      modifies this`editingFood, this`editModalOpen
      ensures editingFood == Some(food)
      ensures editModalOpen == !old(editModalOpen)
    {
      editingFood := Some(food);
      ToggleEditModal();
    }
  }

  /** Opening and closing a modal brings the page back to where it was, and
      neither toggle touches the other modal or the list. */
  method ModalTogglesUndo(d: Dashboard)
    modifies d`modalOpen, d`editModalOpen
    ensures d.modalOpen == old(d.modalOpen) && d.editModalOpen == old(d.editModalOpen)
  {
    d.ToggleModal();
    d.ToggleModal();
    d.ToggleEditModal();
    d.ToggleEditModal();
  }

  /** Deleting the only plate: a 204 empties the list, a 200 does not. */
  method DeleteScenario() {
    var plate := Food(1, "Ao molho", "plate.png", "19.90", "Macarrao", true);
    var d := new Dashboard();
    var _ := d.LoadFoods(Ok([plate]));
    var sent := d.HandleDeleteFood(1, Responded(200));
    assert sent == Delete(1) && d.foods == [plate];
    sent := d.HandleDeleteFood(1, Responded(204));
    assert d.foods == [];
  }

  /** Two plates sharing id 7: a toggle rewrites only the first, a delete drops both. */
  method DuplicateIdScenario() {
    var a := Food(7, "A", "a.png", "10.00", "first", true);
    var b := Food(7, "B", "b.png", "12.00", "second", false);
    var d := new Dashboard();
    var _ := d.LoadFoods(Ok([a, b]));
    var answer := a.(available := false);
    assert d.foods[0].id == 7;
    var sent := d.HandleToggleAvailable(7, Ok(answer));
    assert sent == Put(Some(7), ToggleBody(a)) && d.foods == [answer, b];
    sent := d.HandleDeleteFood(7, Responded(204));
    assert d.foods == [];
  }
}
