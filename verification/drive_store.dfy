/**
 * The cloud drive the uploader talks to, reduced to what the uploader can
 * observe: for every (parent folder id, name) pair the sequence of live
 * (not trashed) items with that exact name under that parent, in the order
 * a listing returns them, plus the content stored for each file id.
 *
 * `Store` is the value-level picture; `DriveService` is the client object
 * whose calls (`files().list`, `files().create`, `files().update`) change it.
 */
module DriveStore {
  import opened Wrappers
  import opened LocalTree

  /** Remote identifiers are opaque; fresh ones are drawn from a counter. */
  type Id = nat

  const FolderMime: string := "application/vnd.google-apps.folder"

  datatype Node = Node(id: Id, mimeType: string)

  datatype Store = Store(children: map<(Id, string), seq<Node>>, content: map<Id, Blob>, nextId: Id)

  /** The items called `name` directly under `parent`, in listing order. */
  function Listing(s: Store, parent: Id, name: string): seq<Node>
  {
    if (parent, name) in s.children then s.children[(parent, name)] else []
  }

  predicate IsFolder(n: Node)
  {
    n.mimeType == FolderMime
  }

  /** The id of the first folder among `nodes`. */
  function FirstFolder(nodes: seq<Node>): (r: Option<Id>)
    ensures r.None? <==> forall k :: 0 <= k < |nodes| ==> !IsFolder(nodes[k])
    ensures r.Some? ==> exists k :: 0 <= k < |nodes| && IsFolder(nodes[k]) && nodes[k].id == r.value
                                    && forall j :: 0 <= j < k ==> !IsFolder(nodes[j])
  {
    if nodes == [] then None
    else if IsFolder(nodes[0]) then Some(nodes[0].id)
    else
      var r := FirstFolder(nodes[1..]);
      assert r.Some? ==> exists k :: 0 <= k < |nodes[1..]| && IsFolder(nodes[1..][k]) && nodes[1..][k].id == r.value
                                     && forall j :: 0 <= j < k ==> !IsFolder(nodes[1..][j]);
      r
  }

  /** The folders among `nodes`, in order: what a folder-only listing returns. */
  function Folders(nodes: seq<Node>): (r: seq<Node>)
    ensures forall n :: n in r <==> n in nodes && IsFolder(n)
    ensures r == [] <==> FirstFolder(nodes).None?
    ensures r != [] ==> FirstFolder(nodes) == Some(r[0].id)
  {
    if nodes == [] then []
    else if IsFolder(nodes[0]) then [nodes[0]] + Folders(nodes[1..])
    else Folders(nodes[1..])
  }

  /** Extending a listing at its end does not change its first folder, once it has one. */
  lemma {:induction false} FirstFolderPrefix(a: seq<Node>, b: seq<Node>)
    requires a <= b && FirstFolder(a).Some?
    ensures FirstFolder(b) == FirstFolder(a)
  {
    if !IsFolder(a[0]) {
      assert a[1..] <= b[1..];
      FirstFolderPrefix(a[1..], b[1..]);
    }
  }

  /** Every id the store knows is below the next fresh id. */
  ghost predicate Valid(s: Store)
  {
    && (forall key :: key in s.children ==> forall n :: n in s.children[key] ==> n.id < s.nextId)
    && (forall id :: id in s.content ==> id < s.nextId)
  }

  /** `id` names nothing in `s`. */
  ghost predicate Unused(s: Store, id: Id)
  {
    && (forall key :: key in s.children ==> forall n :: n in s.children[key] ==> n.id != id)
    && id !in s.content
  }

  lemma NextIdUnused(s: Store)
    requires Valid(s)
    ensures Unused(s, s.nextId)
  {
  }

  /** Every item of `t` that `s` did not list has an id drawn at or after `s.nextId`. */
  ghost predicate FreshAfter(s: Store, t: Store)
  {
    forall p: Id, name: string, k :: |Listing(s, p, name)| <= k < |Listing(t, p, name)| ==>
      Listing(t, p, name)[k].id >= s.nextId
  }

  /**
   * `t` is `s` after some sequence of creations and updates: every listing of
   * `s` is still there, extended only at its end, and every item added since
   * carries a fresh id, so in a `Valid` store no id was reused.
   */
  ghost predicate Grows(s: Store, t: Store)
  {
    && s.nextId <= t.nextId
    && (forall p: Id, name: string :: Listing(s, p, name) <= Listing(t, p, name))
    && FreshAfter(s, t)
  }

  lemma GrowsTransitive(s: Store, t: Store, u: Store)
    requires Grows(s, t) && Grows(t, u)
    ensures Grows(s, u)
  {
    forall p: Id, name: string ensures Listing(s, p, name) <= Listing(u, p, name) {
      assert Listing(s, p, name) <= Listing(t, p, name);
      assert Listing(t, p, name) <= Listing(u, p, name);
    }
    forall p: Id, name: string, k | |Listing(s, p, name)| <= k < |Listing(u, p, name)|
      ensures Listing(u, p, name)[k].id >= s.nextId
    {
      var lt := Listing(t, p, name);
      if k < |lt| {
        assert Listing(u, p, name)[k] == lt[k];
      }
    }
  }

  /** In a valid store, an item added since `s` names nothing `s` knew. */
  lemma GrowsNoReuse(s: Store, t: Store, p: Id, name: string, k: nat)
    requires Valid(s) && Grows(s, t)
    requires |Listing(s, p, name)| <= k < |Listing(t, p, name)|
    ensures Unused(s, Listing(t, p, name)[k].id)
  {
  }

  /** The store after one new item `n` called `name` appears under `parent`. */
  function Added(s: Store, parent: Id, name: string, n: Node, data: Option<Blob>): (t: Store)
    requires n.id == s.nextId
    ensures Listing(t, parent, name) == Listing(s, parent, name) + [n]
    ensures forall p: Id, m: string :: (p, m) != (parent, name) ==> Listing(t, p, m) == Listing(s, p, m)
    ensures t.nextId == s.nextId + 1
    ensures Grows(s, t)
    ensures Valid(s) ==> Valid(t)
  {
    var t := Store(s.children[(parent, name) := Listing(s, parent, name) + [n]],
                   if data.Some? then s.content[n.id := data.value] else s.content,
                   s.nextId + 1);
    assert forall p: Id, m: string :: (p, m) != (parent, name) ==> Listing(t, p, m) == Listing(s, p, m);
    t
  }

  /** The store after the content of file `id` is replaced by `data`. */
  function Rewritten(s: Store, id: Id, data: Blob): (t: Store)
    ensures forall p: Id, m: string :: Listing(t, p, m) == Listing(s, p, m)
    ensures t.content == s.content[id := data] && t.nextId == s.nextId
    ensures Grows(s, t)
  {
    s.(content := s.content[id := data])
  }

  /** The remote drive as seen through its client. */
  class DriveService {
    var children: map<(Id, string), seq<Node>>
    var content: map<Id, Blob>
    var nextId: Id

    function State(): Store
      reads this
    {
      Store(children, content, nextId)
    }

    constructor (s: Store)
      ensures State() == s
    {
      children, content, nextId := s.children, s.content, s.nextId;
    }

    /** `files().list` for `name='…' and '<parent>' in parents and trashed=false`. */
    method List(parent: Id, name: string) returns (items: seq<Node>)
      ensures items == Listing(State(), parent, name)
    {
      items := Listing(State(), parent, name);
    }

    /** The same query restricted to `mimeType` = the folder type. */
    method ListFolders(parent: Id, name: string) returns (items: seq<Node>)
      ensures items == Folders(Listing(State(), parent, name))
    {
      items := Folders(Listing(State(), parent, name));
    }

    /** `files().create` of a folder; returns the new folder's id. */
    method CreateFolder(name: string, parent: Id) returns (id: Id)
      modifies this
      ensures id == old(nextId)
      ensures State() == Added(old(State()), parent, name, Node(id, FolderMime), None)
    {
      id := nextId;
      var s := Added(State(), parent, name, Node(id, FolderMime), None);
      children, content, nextId := s.children, s.content, s.nextId;
    }

    /** `files().create` of a file with its media; returns the new file's id. */
    method CreateFile(name: string, parent: Id, mime: string, data: Blob) returns (id: Id)
      modifies this
      ensures id == old(nextId)
      ensures State() == Added(old(State()), parent, name, Node(id, mime), Some(data))
    {
      id := nextId;
      var s := Added(State(), parent, name, Node(id, mime), Some(data));
      children, content, nextId := s.children, s.content, s.nextId;
    }

    /** `files().update` with new media: the item keeps its id, name and place. */
    method UpdateFile(id: Id, data: Blob)
      modifies this
      ensures State() == Rewritten(old(State()), id, data)
    {
      content := content[id := data];
    }
  }
}
