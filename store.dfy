/**
 * The client-side application store: who is signed in, the user's designs,
 * the design being edited and two UI flags, with the actions that replace
 * them and the projection that is written to local storage.
 */
module Store {
  import opened Wrappers
  import Lists

  datatype Subscription = Free | Premium | Pro

  datatype User = User(id: string, email: string, name: string, avatar: Option<string>, subscription: Subscription)

  datatype DesignStatus = InProgress | Completed

  /** A design record; `designState`, the scene, is kept as its serialised text. */
  datatype Design = Design(
    id: string,
    title: string,
    description: string,
    thumbnail: string,
    status: DesignStatus,
    isPublic: bool,
    roomType: string,
    createdAt: string,
    updatedAt: string,
    designState: string)

  /** A `Partial<Design>`: `None` is a property the update leaves out. */
  datatype DesignUpdate = DesignUpdate(
    id: Option<string>,
    title: Option<string>,
    description: Option<string>,
    thumbnail: Option<string>,
    status: Option<DesignStatus>,
    isPublic: Option<bool>,
    roomType: Option<string>,
    createdAt: Option<string>,
    updatedAt: Option<string>,
    designState: Option<string>)

  const NoChanges: DesignUpdate :=
    DesignUpdate(None, None, None, None, None, None, None, None, None, None)

  function DesignId(d: Design): string { d.id }

  /** `{ ...d, ...u }`: every property present in `u` overrides the one of `d`. */
  function Merge(d: Design, u: DesignUpdate): Design {
    Design(
      u.id.GetOr(d.id),
      u.title.GetOr(d.title),
      u.description.GetOr(d.description),
      u.thumbnail.GetOr(d.thumbnail),
      u.status.GetOr(d.status),
      u.isPublic.GetOr(d.isPublic),
      u.roomType.GetOr(d.roomType),
      u.createdAt.GetOr(d.createdAt),
      u.updatedAt.GetOr(d.updatedAt),
      u.designState.GetOr(d.designState))
  }

  /** An empty update changes nothing. */
  lemma MergeNoChanges(d: Design)
    ensures Merge(d, NoChanges) == d
  {
  }

  /** Applying the same update twice is applying it once. */
  lemma MergeIdempotent(d: Design, u: DesignUpdate)
    ensures Merge(Merge(d, u), u) == Merge(d, u)
  {
  }

  /** Every property the update carries wins, and every one it leaves out keeps the design's value. */
  lemma MergeOverrides(d: Design, u: DesignUpdate)
    ensures Merge(d, u).id == (if u.id.Some? then u.id.value else d.id)
    ensures Merge(d, u).title == (if u.title.Some? then u.title.value else d.title)
    ensures Merge(d, u).description == (if u.description.Some? then u.description.value else d.description)
    ensures Merge(d, u).thumbnail == (if u.thumbnail.Some? then u.thumbnail.value else d.thumbnail)
    ensures Merge(d, u).status == (if u.status.Some? then u.status.value else d.status)
    ensures Merge(d, u).isPublic == (if u.isPublic.Some? then u.isPublic.value else d.isPublic)
    ensures Merge(d, u).roomType == (if u.roomType.Some? then u.roomType.value else d.roomType)
    ensures Merge(d, u).createdAt == (if u.createdAt.Some? then u.createdAt.value else d.createdAt)
    ensures Merge(d, u).updatedAt == (if u.updatedAt.Some? then u.updatedAt.value else d.updatedAt)
    ensures Merge(d, u).designState == (if u.designState.Some? then u.designState.value else d.designState)
  {
  }

  /** `designs.filter(d => d.id !== id)`. */
  function RemoveById(designs: seq<Design>, id: string): seq<Design> {
    Lists.Without(designs, DesignId, id)
  }

  /** `designs.map(d => d.id === id ? { ...d, ...updates } : d)`. */
  function UpdateById(designs: seq<Design>, id: string, updates: DesignUpdate): seq<Design> {
    Lists.Replace(designs, DesignId, id, (d: Design) => Merge(d, updates))
  }

  /** The whole store as a value. */
  datatype StoreState = StoreState(
    user: Option<User>,
    isAuthenticated: bool,
    designs: seq<Design>,
    currentDesign: Option<Design>,
    isLoading: bool,
    error: Option<string>)

  /** `initialState`. */
  const InitialState: StoreState := StoreState(None, false, [], None, false, None)

  /** The part of the store that `partialize` keeps for local storage. */
  datatype PersistedState = PersistedState(user: Option<User>, isAuthenticated: bool, designs: seq<Design>)

  function Partialize(s: StoreState): PersistedState
  {
    PersistedState(s.user, s.isAuthenticated, s.designs)
  }

  /** Two stores persist the same record exactly when they agree on the user, the flag and the designs. */
  lemma PartializeDeterminedBy(s: StoreState, t: StoreState)
    ensures Partialize(s) == Partialize(t)
      <==> s.user == t.user && s.isAuthenticated == t.isAuthenticated && s.designs == t.designs
  {
  }

  /** The design being edited, the loading flag and the error never reach local storage. */
  lemma PartializeIgnoresTransient(s: StoreState, current: Option<Design>, loading: bool, error: Option<string>)
    ensures Partialize(s.(currentDesign := current, isLoading := loading, error := error)) == Partialize(s)
  {
  }

  /** The store object; each action replaces some fields, as `set` does. */
  class AppStore {
    var user: Option<User>
    var isAuthenticated: bool
    var designs: seq<Design>
    var currentDesign: Option<Design>
    var isLoading: bool
    var error: Option<string>

    function State(): StoreState
      reads this
    {
      StoreState(user, isAuthenticated, designs, currentDesign, isLoading, error)
    }

    constructor ()
      ensures State() == InitialState
    {
      user := None;
      isAuthenticated := false;
      designs := [];
      currentDesign := None;
      isLoading := false;
      error := None;
    }

    /** `setUser`: the user, and whether someone is signed in. */
    method SetUser(u: Option<User>)
      modifies this
      ensures State() == old(State()).(user := u, isAuthenticated := u.Some?)
    {
      user := u;
      isAuthenticated := u.Some?;
    }

    method SetAuthenticated(b: bool)
      modifies this
      ensures State() == old(State()).(isAuthenticated := b)
    {
      isAuthenticated := b;
    }

    method SetDesigns(ds: seq<Design>)
      modifies this
      ensures State() == old(State()).(designs := ds)
    {
      designs := ds;
    }

    /** `addDesign`: the new design goes first. */
    method AddDesign(d: Design)
      modifies this
      ensures State() == old(State()).(designs := [d] + old(designs))
      ensures |designs| == |old(designs)| + 1 && designs[0] == d && designs[1..] == old(designs)
    {
      designs := [d] + designs;
    }

    method UpdateDesign(id: string, updates: DesignUpdate)
      modifies this
      ensures State() == old(State()).(designs := UpdateById(old(designs), id, updates))
    {
      designs := UpdateById(designs, id, updates);
    }

    method DeleteDesign(id: string)
      modifies this
      ensures State() == old(State()).(designs := RemoveById(old(designs), id))
    {
      designs := RemoveById(designs, id);
    }

    method SetCurrentDesign(d: Option<Design>)
      modifies this
      ensures State() == old(State()).(currentDesign := d)
      ensures Partialize(State()) == Partialize(old(State()))
    {
      currentDesign := d;
    }

    method SetLoading(b: bool)
      modifies this
      ensures State() == old(State()).(isLoading := b)
      ensures Partialize(State()) == Partialize(old(State()))
    {
      isLoading := b;
    }

    method SetError(e: Option<string>)
      modifies this
      ensures State() == old(State()).(error := e)
      ensures Partialize(State()) == Partialize(old(State()))
    {
      error := e;
    }

    /** `reset`: back to `initialState`. */
    method Reset()
      modifies this
      ensures State() == InitialState
    {
      user, isAuthenticated, designs := InitialState.user, InitialState.isAuthenticated, InitialState.designs;
      currentDesign, isLoading, error := InitialState.currentDesign, InitialState.isLoading, InitialState.error;
    }
  }

  /** Deleting keeps exactly the designs with another id, each of them, in their order. */
  lemma DeleteKeepsOthers(designs: seq<Design>, id: string, d: Design)
    ensures d in RemoveById(designs, id) <==> d in designs && d.id != id
    ensures |RemoveById(designs, id)| == |designs| - Lists.Count(designs, DesignId, id)
  {
    var r := RemoveById(designs, id);
    if d in r {
      var i :| 0 <= i < |r| && r[i] == d;
    }
    if d in designs && d.id != id {
      var i :| 0 <= i < |designs| && designs[i] == d;
    }
  }

  /** Deleting an id no design has changes nothing. */
  lemma DeleteAbsent(designs: seq<Design>, id: string)
    requires forall i :: 0 <= i < |designs| ==> designs[i].id != id
    ensures RemoveById(designs, id) == designs
  {
    Lists.WithoutAbsent(designs, DesignId, id);
  }

  /** A second delete of the same id does nothing. */
  lemma DeleteTwice(designs: seq<Design>, id: string)
    ensures RemoveById(RemoveById(designs, id), id) == RemoveById(designs, id)
  {
    Lists.WithoutIdempotent(designs, DesignId, id);
  }

  /** Adding a design with a fresh id and then deleting that id restores the list. */
  lemma AddThenDelete(designs: seq<Design>, d: Design)
    requires forall i :: 0 <= i < |designs| ==> designs[i].id != d.id
    ensures RemoveById([d] + designs, d.id) == designs
  {
    Lists.WithoutAppend([d], designs, DesignId, d.id);
    assert Lists.Without([d], DesignId, d.id) == [];
    DeleteAbsent(designs, d.id);
  }

  /** An update keeps the length and order; designs with another id are untouched and the others are merged. */
  lemma UpdateShape(designs: seq<Design>, id: string, updates: DesignUpdate)
    ensures |UpdateById(designs, id, updates)| == |designs|
    ensures forall i :: 0 <= i < |designs| ==>
      UpdateById(designs, id, updates)[i] == if designs[i].id == id then Merge(designs[i], updates) else designs[i]
  {
    var r := UpdateById(designs, id, updates);
    forall i | 0 <= i < |designs|
      ensures r[i] == if designs[i].id == id then Merge(designs[i], updates) else designs[i]
    {
      assert DesignId(designs[i]) == designs[i].id;
    }
  }

  /** Applying the same update to the same id twice is applying it once. */
  lemma UpdateTwice(designs: seq<Design>, id: string, updates: DesignUpdate)
    ensures UpdateById(UpdateById(designs, id, updates), id, updates) == UpdateById(designs, id, updates)
  {
    var once := UpdateById(designs, id, updates);
    var twice := UpdateById(once, id, updates);
    UpdateShape(designs, id, updates);
    UpdateShape(once, id, updates);
    forall i | 0 <= i < |designs| ensures twice[i] == once[i] {
      MergeIdempotent(designs[i], updates);
    }
  }
}
