/**
 * The dashboard's own list of designs and its two list handlers: deleting a
 * design and switching a design between public and private.
 */
module Dashboard {
  import opened Wrappers
  import opened Ui
  import Lists

  /** A design card as the dashboard keeps it. */
  datatype Card = Card(
    id: string,
    title: string,
    description: string,
    thumbnail: string,
    status: string,
    views: nat,
    likes: nat,
    createdAt: string,
    isPublic: bool)

  function CardId(c: Card): string { c.id }

  /** The list the page starts with. */
  const SampleCards: seq<Card> := [
    Card("1", "Modern Living Room", "Contemporary design with clean lines",
      "https://images.pexels.com/photos/1571460/pexels-photo-1571460.jpeg?auto=compress&cs=tinysrgb&w=400",
      "completed", 128, 24, "2024-01-15", true),
    Card("2", "Cozy Bedroom Retreat", "Warm and inviting bedroom design",
      "https://images.pexels.com/photos/1571452/pexels-photo-1571452.jpeg?auto=compress&cs=tinysrgb&w=400",
      "in_progress", 45, 12, "2024-01-12", false),
    Card("3", "Minimalist Office Space", "Clean and productive workspace",
      "https://images.pexels.com/photos/1571453/pexels-photo-1571453.jpeg?auto=compress&cs=tinysrgb&w=400",
      "completed", 89, 18, "2024-01-10", true)
  ]

  const DeletedToast: Toast :=
    Toast("Design deleted", "Your design has been successfully deleted.", false)

  const PublicToast: Toast :=
    Toast("Design made public", "Your design is now visible to everyone.", false)

  const PrivateToast: Toast :=
    Toast("Design made private", "Your design is now private.", false)

  /** `designs.filter(d => d.id !== designId)`. */
  function WithoutCard(cards: seq<Card>, id: string): seq<Card> {
    Lists.Without(cards, CardId, id)
  }

  /**
   * `!design?.isPublic` for the first card with the id: the negation of its
   * visibility, and `true` when there is no such card (`!undefined`).
   */
  function NewPublicStatus(cards: seq<Card>, id: string): (b: bool)
    ensures Lists.Absent(cards, CardId, id) ==> b
    ensures forall i :: Lists.IsFirst(cards, CardId, id, i) ==> b == !cards[i].isPublic
  {
    match Lists.Find(cards, CardId, id)
    case Some(c) => !c.isPublic
    case None => true
  }

  /** `designs.map(d => d.id === designId ? { ...d, isPublic: b } : d)`. */
  function SetPublic(cards: seq<Card>, id: string, b: bool): seq<Card> {
    Lists.Replace(cards, CardId, id, (c: Card) => c.(isPublic := b))
  }

  /** The list after a toggle of `id`. */
  function Toggled(cards: seq<Card>, id: string): seq<Card> {
    SetPublic(cards, id, NewPublicStatus(cards, id))
  }

  /** The toast a toggle of `id` raises, chosen from the new status. */
  function ToggleToast(cards: seq<Card>, id: string): Toast {
    if NewPublicStatus(cards, id) then PublicToast else PrivateToast
  }

  class DashboardPage {
    var designs: seq<Card>

    constructor ()
      ensures designs == SampleCards
    {
      designs := SampleCards;
    }

    /** `handleDeleteDesign`: the new list, and the toast raised. */
    method HandleDeleteDesign(id: string) returns (toast: Toast)
      modifies this
      ensures designs == WithoutCard(old(designs), id)
      ensures toast == DeletedToast
    {
      designs := WithoutCard(designs, id);
      toast := DeletedToast;
    }

    /** `handleTogglePublic`: the new list, and the toast chosen from the new status. */
    method HandleTogglePublic(id: string) returns (toast: Toast)
      modifies this
      ensures designs == Toggled(old(designs), id)
      ensures toast == ToggleToast(old(designs), id)
    {
      var design := Lists.Find(designs, CardId, id);
      var newPublicStatus := !(design.Some? && design.value.isPublic);
      designs := SetPublic(designs, id, newPublicStatus);
      toast := if newPublicStatus then PublicToast else PrivateToast;
    }
  }

  /** Deleting keeps exactly the cards with another id, in their order. */
  lemma DeleteKeepsOthers(cards: seq<Card>, id: string, pre: seq<Card>, post: seq<Card>)
    requires cards == pre + post
    ensures WithoutCard(cards, id) == WithoutCard(pre, id) + WithoutCard(post, id)
    ensures forall i :: 0 <= i < |WithoutCard(cards, id)| ==> WithoutCard(cards, id)[i].id != id
    ensures forall i :: 0 <= i < |cards| && cards[i].id != id ==> cards[i] in WithoutCard(cards, id)
  {
    Lists.WithoutAppend(pre, post, CardId, id);
    var r := WithoutCard(cards, id);
    forall i | 0 <= i < |r| ensures r[i].id != id {
      assert CardId(r[i]) != id;
    }
    forall i | 0 <= i < |cards| && cards[i].id != id ensures cards[i] in r {
      assert CardId(cards[i]) != id;
    }
  }

  /** Deleting an id no card has leaves the list as it is. */
  lemma DeleteAbsent(cards: seq<Card>, id: string)
    requires forall i :: 0 <= i < |cards| ==> cards[i].id != id
    ensures WithoutCard(cards, id) == cards
  {
    Lists.WithoutAbsent(cards, CardId, id);
  }

  /** A toggle keeps length and order and changes nothing but `isPublic` of the cards with the id. */
  lemma ToggleShape(cards: seq<Card>, id: string)
    ensures |Toggled(cards, id)| == |cards|
    ensures forall i :: 0 <= i < |cards| ==>
      Toggled(cards, id)[i] == if cards[i].id == id then cards[i].(isPublic := NewPublicStatus(cards, id)) else cards[i]
  {
    var r := Toggled(cards, id);
    forall i | 0 <= i < |cards|
      ensures r[i] == if cards[i].id == id then cards[i].(isPublic := NewPublicStatus(cards, id)) else cards[i]
    {
      assert CardId(cards[i]) == cards[i].id;
    }
  }

  /** Every card with the id ends with the negation of the first such card's old visibility. */
  lemma ToggleFlipsFirst(cards: seq<Card>, id: string, k: int)
    requires Lists.IsFirst(cards, CardId, id, k)
    ensures forall i :: 0 <= i < |cards| && cards[i].id == id ==> Toggled(cards, id)[i].isPublic == !cards[k].isPublic
  {
    ToggleShape(cards, id);
    var r := Lists.Find(cards, CardId, id);
    var j :| Lists.IsFirst(cards, CardId, id, j) && r.value == cards[j];
    assert j == k;
  }

  /** Toggling an absent id changes no card, yet reports the design as made public. */
  lemma ToggleAbsent(cards: seq<Card>, id: string)
    requires forall i :: 0 <= i < |cards| ==> cards[i].id != id
    ensures Toggled(cards, id) == cards
    ensures NewPublicStatus(cards, id)
    ensures ToggleToast(cards, id).title == "Design made public"
  {
    assert Lists.Absent(cards, CardId, id);
    Lists.ReplaceAbsent(cards, CardId, id, (c: Card) => c.(isPublic := true));
  }

  /** On a list with unique ids, toggling twice restores it. */
  lemma ToggleTwice(cards: seq<Card>, id: string)
    requires Lists.UniqueKeys(cards, CardId)
    ensures Toggled(Toggled(cards, id), id) == cards
  {
    var once := Toggled(cards, id);
    ToggleShape(cards, id);
    if k :| 0 <= k < |cards| && cards[k].id == id {
      Lists.FindUnique(cards, CardId, id, k);
      assert Lists.UniqueKeys(once, CardId) by {
        forall i, j | 0 <= i < j < |once| ensures CardId(once[i]) != CardId(once[j]) {
          assert CardId(cards[i]) != CardId(cards[j]);
        }
      }
      Lists.FindUnique(once, CardId, id, k);
      ToggleShape(once, id);
      assert NewPublicStatus(once, id) == cards[k].isPublic;
      var twice := Toggled(once, id);
      forall i | 0 <= i < |cards| ensures twice[i] == cards[i] {
        if cards[i].id == id {
          assert CardId(cards[i]) == CardId(cards[k]);
          assert i == k;
        }
      }
    } else {
      ToggleAbsent(cards, id);
    }
  }
}
