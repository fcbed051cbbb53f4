/**
 * The header and structured bodies are boost property trees. A tree is
 * modelled by the data it stores at each path of child keys: the root's
 * data sits at [], the data of child "to" then "n" (the dotted key "to.n")
 * sits at ["to", "n"]. Child order and duplicate keys are not modelled.
 */
module PTree {

  type Path = seq<string>
  type Tree = map<Path, string>

  const EmptyTree: Tree := map[]

  /** get<std::string>(path, default): the data at path, or the default when there is none. */
  function Get(t: Tree, p: Path, default: string): string
  {
    if p in t then t[p] else default
  }

  /** put(path, value): set the data at path; every other path keeps its data. */
  function Put(t: Tree, p: Path, v: string): (r: Tree)
    ensures Get(r, p, "") == v
    ensures forall q :: q != p ==> Get(r, q, "") == Get(t, q, "")
  {
    t[p := v]
  }

  /** Does the tree have a direct child called k (find(k) != not_found())? */
  predicate HasChild(t: Tree, k: string)
  {
    exists p | p in t :: |p| > 0 && p[0] == k
  }

  /** The subtree under the direct child k, re-rooted. */
  function Child(t: Tree, k: string): (c: Tree)
    ensures forall q :: q in c ==> [k] + q in t && c[q] == t[[k] + q]
    ensures forall q :: [k] + q in t ==> q in c
  {
    var keys := set p | p in t && |p| > 0 && p[0] == k :: p[1..];
    assert forall q :: q in keys ==> [k] + q in t by {
      forall q | q in keys
        ensures [k] + q in t
      {
        var p :| p in t && |p| > 0 && p[0] == k && p[1..] == q;
        assert p == [k] + q;
      }
    }
    assert forall q :: [k] + q in t ==> q in keys by {
      forall q | [k] + q in t
        ensures q in keys
      {
        assert ([k] + q)[1..] == q;
      }
    }
    map q | q in keys :: t[[k] + q]
  }

  /** erase(k): drop the direct child k with everything below it. */
  function EraseChild(t: Tree, k: string): (r: Tree)
    ensures !HasChild(r, k)
    ensures forall p :: p in r <==> p in t && !(|p| > 0 && p[0] == k)
    ensures forall p :: p in r ==> r[p] == t[p]
  {
    map p | p in t && !(|p| > 0 && p[0] == k) :: t[p]
  }

  /** The subtree c hung under key k. */
  function Graft(k: string, c: Tree): (r: Tree)
    ensures forall p :: p in r ==> |p| > 0 && p[0] == k
    ensures forall q :: [k] + q in r <==> q in c
    ensures forall q :: q in c ==> r[[k] + q] == c[q]
  {
    var keys := set q | q in c :: [k] + q;
    assert forall p :: p in keys ==> p[1..] in c by {
      forall p | p in keys
        ensures p[1..] in c
      {
        var q :| q in c && p == [k] + q;
        assert p[1..] == q;
      }
    }
    assert forall q :: [k] + q in keys ==> q in c by {
      forall q | [k] + q in keys
        ensures q in c
      {
        assert ([k] + q)[1..] == q;
      }
    }
    assert forall q :: q in c ==> ([k] + q)[1..] == q;
    map p | p in keys :: c[p[1..]]
  }

  /** put_child(k, c): the child k becomes c, replacing whatever was there. */
  function PutChild(t: Tree, k: string, c: Tree): (r: Tree)
    ensures HasChild(r, k) <==> c != EmptyTree
    ensures forall p :: p in r && !(|p| > 0 && p[0] == k) ==> p in t && r[p] == t[p]
    ensures forall q :: [k] + q in r <==> q in c
    ensures forall q :: q in c ==> r[[k] + q] == c[q]
  {
    var r := EraseChild(t, k) + Graft(k, c);
    assert forall q :: [k] + q !in EraseChild(t, k) by {
      forall q
        ensures [k] + q !in EraseChild(t, k)
      {
        assert ([k] + q)[0] == k;
      }
    }
    assert c != EmptyTree ==> HasChild(r, k) by {
      if c != EmptyTree {
        var q :| q in c;
        assert [k] + q in r;
      }
    }
    r
  }

  /** Taking back the child that was put: the same subtree. */
  lemma ChildOfPutChild(t: Tree, k: string, c: Tree)
    ensures Child(PutChild(t, k, c), k) == c
  {
    var c' := Child(PutChild(t, k, c), k);
    assert forall q :: q in c' <==> q in c;
  }

  /** Erasing the child that was put gives back the tree without that child. */
  lemma EraseOfPutChild(t: Tree, k: string, c: Tree)
    ensures EraseChild(PutChild(t, k, c), k) == EraseChild(t, k)
  {
  }

  /** Erasing a child that is not there changes nothing. */
  lemma EraseAbsentChild(t: Tree, k: string)
    requires !HasChild(t, k)
    ensures EraseChild(t, k) == t
  {
    forall p | p in t
      ensures p in EraseChild(t, k)
    {
      assert !(|p| > 0 && p[0] == k);
    }
  }
}
