/**
 * The part of a Tiled catalog the model writes to: a tree of containers with array nodes as
 * leaves, each node addressed by the keys leading to it from the root. The tree is held as a
 * map from paths to nodes; the client calls `key in container`, `create_container`, `delete`
 * and `new` become updates of that map.
 */
module CatalogTree {

  type Path = seq<string>

  /** The description an array node is registered with (structure, data source and specs). */
  datatype ArrayInfo = ArrayInfo(dtype: string, shape: seq<nat>, mimetype: string, spec: string,
                                 dataUri: string, metadata: map<string, string>)

  datatype Node = Container | ArrayNode(info: ArrayInfo)

  predicate IsPrefix(p: Path, q: Path)
  {
    |p| <= |q| && q[..|p|] == p
  }

  /** The root is a container and every other node hangs under a container. */
  ghost predicate WellFormed(nodes: map<Path, Node>)
  {
    && [] in nodes && nodes[[]] == Container
    && forall q :: q in nodes && q != [] ==> q[..|q| - 1] in nodes && nodes[q[..|q| - 1]] == Container
  }

  /** `if key not in parent: parent.create_container(key=key)`. */
  function WithContainer(nodes: map<Path, Node>, parent: Path, key: string): map<Path, Node>
  {
    if parent + [key] in nodes then nodes else nodes[parent + [key] := Container]
  }

  /** `parent.delete(key)`: the node at `p` and everything under it disappear. */
  function WithoutSubtree(nodes: map<Path, Node>, p: Path): map<Path, Node>
  {
    map q | q in nodes && !IsPrefix(p, q) :: nodes[q]
  }

  /** Get-or-create adds at most the one child, keeps every existing node as it was, and
      gives the same tree when repeated. */
  lemma WithContainerFacts(nodes: map<Path, Node>, parent: Path, key: string)
    ensures var r := WithContainer(nodes, parent, key);
      && parent + [key] in r
      && r.Keys == nodes.Keys + {parent + [key]}
      && (forall q :: q in nodes ==> r[q] == nodes[q])
      && WithContainer(r, parent, key) == r
  {
  }

  lemma WithContainerWellFormed(nodes: map<Path, Node>, parent: Path, key: string)
    requires WellFormed(nodes) && parent in nodes && nodes[parent] == Container
    ensures WellFormed(WithContainer(nodes, parent, key))
  {
    var c := parent + [key];
    assert c[..|c| - 1] == parent;
  }

  /** Deleting a non-root node keeps a tree a tree, and removes exactly the nodes at or under it. */
  lemma {:induction false} WithoutSubtreeWellFormed(nodes: map<Path, Node>, p: Path)
    requires WellFormed(nodes) && p != []
    ensures WellFormed(WithoutSubtree(nodes, p))
    ensures p !in WithoutSubtree(nodes, p)
    ensures forall q :: q in WithoutSubtree(nodes, p) <==> q in nodes && !IsPrefix(p, q)
  {
    var r := WithoutSubtree(nodes, p);
    assert !IsPrefix(p, []);
    forall q | q in r && q != []
      ensures q[..|q| - 1] in r && r[q[..|q| - 1]] == Container
    {
      var up := q[..|q| - 1];
      assert !IsPrefix(p, up) by {
        if IsPrefix(p, up) {
          assert false;
        }
      }
    }
    assert IsPrefix(p, p);
  }

  class Tree {
    var nodes: map<Path, Node>

    ghost predicate Valid()
      reads this
    {
      WellFormed(nodes)
    }

    constructor ()
      ensures Valid() && nodes == map[[] := Container]
    {
      nodes := map[[] := Container];
    }

    /** `create_run_container`: return the child `key` of `parent`, creating a container
        there only if there is no child of that name. */
    method GetOrCreateContainer(parent: Path, key: string) returns (child: Path)
      requires Valid() && parent in nodes && nodes[parent] == Container
      modifies this
      ensures Valid()
      ensures child == parent + [key] && child in nodes
      ensures nodes == WithContainer(old(nodes), parent, key)
    {
      WithContainerWellFormed(nodes, parent, key);
      child := parent + [key];
      if child !in nodes {
        nodes := nodes[child := Container];
      }
    }

    /** `parent.delete(key)`. */
    method Delete(parent: Path, key: string)
      requires Valid()
      modifies this
      ensures Valid()
      ensures nodes == WithoutSubtree(old(nodes), parent + [key])
    {
      WithoutSubtreeWellFormed(nodes, parent + [key]);
      nodes := WithoutSubtree(nodes, parent + [key]);
    }

    /** `parent.new(key=key, structure_family=array, ...)` for a key that is free. */
    method NewArray(parent: Path, key: string, info: ArrayInfo) returns (child: Path)
      requires Valid() && parent in nodes && nodes[parent] == Container && parent + [key] !in nodes
      modifies this
      ensures Valid()
      ensures child == parent + [key]
      ensures nodes == old(nodes)[child := ArrayNode(info)]
    {
      child := parent + [key];
      assert child[..|child| - 1] == parent;
      nodes := nodes[child := ArrayNode(info)];
    }
  }
}
