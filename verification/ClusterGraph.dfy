/** The graph of a cluster's resources and the walk over its machine templates
    (pkg/cluster/driver/capi/capi.go).  The API server is a finite map. */
module ClusterGraph {
  import opened Text

  datatype Gvk = Gvk(apiVersion: string, kind: string)
  datatype Key = Key(gvk: Gvk, name: string)

  /** References that cannot be read are None. */
  datatype Object = Object(infrastructureRef: Option<Key>, controlPlaneRef: Option<Key>, templateRef: Option<Key>, owners: set<Key>)

  type Server = map<Key, Object>
  type Nested = map<Gvk, map<string, GraphNode>>

  const CLUSTER := Gvk("cluster.x-k8s.io/v1beta1", "Cluster")
  const DEPLOYMENT := Gvk("cluster.x-k8s.io/v1beta1", "MachineDeployment")
  const CONTROL_PLANE_KIND := "KubeadmControlPlane"

  class GraphNode {
    const key: Key
    var children: Nested

    constructor (key: Key)
      ensures this.key == key && children == map[]
    {
      this.key := key;
      children := map[];
    }

    method AddChild(c: GraphNode)
      modifies this
      ensures children == AddTo(old(children), c)
    {
      children := AddTo(children, c);
    }
  }

  function Lookup(m: Nested, k: Key): Option<GraphNode> {
    if k.gvk in m && k.name in m[k.gvk] then Some(m[k.gvk][k.name]) else None
  }

  function AddTo(m: Nested, n: GraphNode): Nested {
    var inner: map<string, GraphNode> := if n.key.gvk in m then m[n.key.gvk] else map[];
    m[n.key.gvk := inner[n.key.name := n]]
  }

  lemma LookupAdded(m: Nested, n: GraphNode, k: Key)
    ensures Lookup(AddTo(m, n), k) == if k == n.key then Some(n) else Lookup(m, k)
  {
  }

  lemma AddedNotEmpty(m: Nested, n: GraphNode)
    ensures AddTo(m, n) != map[]
  {
    assert n.key.gvk in AddTo(m, n);
  }

  lemma KindsDiffer()
    ensures CONTROL_PLANE_KIND != DEPLOYMENT.kind && CONTROL_PLANE_KIND != CLUSTER.kind && CLUSTER != DEPLOYMENT
  {
    assert CONTROL_PLANE_KIND[0] != DEPLOYMENT.kind[0] && CONTROL_PLANE_KIND[0] != CLUSTER.kind[0] && CLUSTER.kind[0] != DEPLOYMENT.kind[0];
  }

  /** The reference a control plane or a machine deployment has to its template. */
  function TemplateOf(s: Server, k: Key): Option<Key> {
    if k in s then s[k].templateRef else None
  }

  /** A reference that can be read and names an object the server has. */
  predicate Resolves(s: Server, ref: Option<Key>) { ref.Some? && ref.value in s }

  class ClusterGraph {
    var cluster: GraphNode
    var infrastructure: GraphNode
    var controlPlane: GraphNode
    var machineTemplates: Nested
    var machineDeployments: map<string, GraphNode>
    var all: Nested
    ghost var nodes: set<GraphNode>

    constructor (cluster: GraphNode)
      ensures this.cluster == infrastructure == controlPlane == cluster
      ensures machineDeployments == map[] && nodes == {} && Indexed()
      ensures forall k: Key :: Lookup(all, k).None? && Lookup(machineTemplates, k).None?
    {
      this.cluster, infrastructure, controlPlane := cluster, cluster, cluster;
      machineTemplates, machineDeployments, all := map[], map[], map[];
      nodes := {};
    }

    /** Nodes are found under their own keys. */
    ghost predicate Indexed()
      reads this
    {
      && (forall k: Key :: Lookup(all, k).Some? ==> Lookup(all, k).value.key == k && Lookup(all, k).value in nodes)
      && (forall k: Key :: Lookup(machineTemplates, k).Some? ==> Lookup(machineTemplates, k) == Lookup(all, k))
    }

    method AddToAll(gn: GraphNode) returns (r: GraphNode)
      requires Indexed()
      modifies this`all, this`nodes
      ensures Indexed() && r.key == gn.key && r in nodes
      ensures nodes == old(nodes) + {r}
      ensures r == if Lookup(old(all), gn.key).Some? then Lookup(old(all), gn.key).value else gn
      ensures forall k: Key :: Lookup(all, k) == if k == gn.key then Some(r) else Lookup(old(all), k)
    {
      if Lookup(all, gn.key).Some? {
        return Lookup(all, gn.key).value;
      }
      forall k: Key
        ensures Lookup(AddTo(all, gn), k) == if k == gn.key then Some(gn) else Lookup(all, k)
      {
        LookupAdded(all, gn, k);
      }
      all := AddTo(all, gn);
      nodes := nodes + {gn};
      r := gn;
    }

    method AddTemplate(t: GraphNode)
      requires Indexed() && Lookup(all, t.key) == Some(t)
      modifies this`machineTemplates
      ensures Indexed()
      ensures forall k: Key :: Lookup(machineTemplates, k) == if k == t.key then Some(t) else Lookup(old(machineTemplates), k)
    {
      forall k: Key
        ensures Lookup(AddTo(machineTemplates, t), k) == if k == t.key then Some(t) else Lookup(machineTemplates, k)
      {
        LookupAdded(machineTemplates, t, k);
      }
      machineTemplates := AddTo(machineTemplates, t);
    }

    /** The node has one child: the node all parents naming that template share. */
    ghost predicate HasTemplate(n: GraphNode, s: Server)
      reads this, n
    {
      TemplateOf(s, n.key).Some? &&
      var t := Lookup(all, TemplateOf(s, n.key).value);
      t.Some? && n.children == AddTo(map[], t.value) && Lookup(machineTemplates, t.value.key) == t
    }

    // ---------- building

    /** What is found stays found. */
    twostate predicate Keeps()
      reads this
    {
      && (forall k: Key | Lookup(old(all), k).Some? :: Lookup(all, k) == Lookup(old(all), k))
      && (forall k: Key | Lookup(old(machineTemplates), k).Some? :: Lookup(machineTemplates, k) == Lookup(old(machineTemplates), k))
    }

    /** Gives a node the template it refers to. */
    method AttachTemplate(s: Server, parent: GraphNode) returns (ok: bool)
      requires Indexed() && parent.children == map[]
      modifies this`all, this`nodes, this`machineTemplates, parent
      ensures Keeps() && ok == Resolves(s, TemplateOf(s, parent.key))
      ensures ok ==> Indexed() && HasTemplate(parent, s)
      ensures ok ==> nodes >= old(nodes) && fresh(nodes - old(nodes))
      ensures ok ==> forall n: GraphNode | n in nodes - old(nodes) :: n.children == map[]
      ensures ok ==> forall n: GraphNode | n in old(nodes) && n != parent && old(HasTemplate(n, s)) :: HasTemplate(n, s)
    {
      hide Lookup, AddTo, TemplateOf;
      var found, template := GetByRef(s, TemplateOf(s, parent.key));
      if !found {
        return false;
      }
      template := AddToAll(template);
      parent.AddChild(template);
      AddTemplate(template);
      return true;
    }

    method PopulateControlPlane(s: Server, controlPlane: GraphNode) returns (ok: bool)
      requires Indexed() && controlPlane.children == map[]
      modifies this`all, this`nodes, this`machineTemplates, controlPlane
      ensures Keeps()
      ensures ok <==> controlPlane.key.gvk.kind == CONTROL_PLANE_KIND && Resolves(s, TemplateOf(s, controlPlane.key))
      ensures ok ==> Indexed() && HasTemplate(controlPlane, s)
      ensures ok ==> nodes >= old(nodes) && fresh(nodes - old(nodes))
      ensures ok ==> forall n: GraphNode | n in nodes - old(nodes) :: n.children == map[]
    {
      if controlPlane.key.gvk.kind != CONTROL_PLANE_KIND {
        return false;
      }
      ok := AttachTemplate(s, controlPlane);
    }

    /** The node of a machine deployment: recorded, with its one child. */
    ghost predicate DeploymentDone(s: Server, name: string)
      requires name in machineDeployments
      reads this, nodes
    {
      var n := machineDeployments[name];
      n in nodes && n.key == Key(DEPLOYMENT, name) && HasTemplate(n, s)
    }

    /** The machine deployments in `done` are in the graph; the others have no
        children yet. */
    ghost predicate DeploymentsInv(s: Server, done: set<Key>)
      reads this, nodes
    {
      && Indexed()
      && (forall name: string :: name in machineDeployments <==> Key(DEPLOYMENT, name) in done)
      && (forall name: string | name in machineDeployments :: DeploymentDone(s, name))
      && (forall n: GraphNode | n in nodes && n.key.gvk == DEPLOYMENT && n.key !in done :: n.children == map[])
    }

    lemma InvSays(s: Server, done: set<Key>)
      requires DeploymentsInv(s, done)
      ensures forall n: string :: n in machineDeployments <==> Key(DEPLOYMENT, n) in done
    {
    }

    method PopulateMachineDeployments(s: Server, cluster: GraphNode) returns (ok: bool)
      requires DeploymentsInv(s, {}) && cluster in nodes && cluster.key.gvk == CLUSTER
      modifies this`all, this`nodes, this`machineTemplates, this`machineDeployments, nodes
      ensures Keeps()
      ensures ok <==> forall k: Key | k in OwnedBy(s, cluster.key) :: Resolves(s, TemplateOf(s, k))
      ensures ok ==> DeploymentsInv(s, OwnedBy(s, cluster.key))
      ensures ok ==> forall n: string :: n in machineDeployments <==>
        Key(DEPLOYMENT, n) in s && cluster.key in s[Key(DEPLOYMENT, n)].owners
      ensures forall n: GraphNode | n in old(nodes) && n != cluster && n.key.gvk != DEPLOYMENT :: n.children == old(n.children)
    {
      hide Lookup, AddTo, DeploymentsInv, TemplateOf;
      var owned := OwnedBy(s, cluster.key);
      var left := owned;
      assert owned - left == {};
      while left != {}
        invariant left <= owned && DeploymentsInv(s, owned - left)
        invariant forall k: Key | k in owned - left :: Resolves(s, TemplateOf(s, k))
        invariant nodes >= old(nodes) && fresh(nodes - old(nodes))
        invariant Keeps()
        invariant forall n: GraphNode | n in old(nodes) && n != cluster && n.key.gvk != DEPLOYMENT :: n.children == old(n.children)
        decreases left
      {
        var k :| k in left;
        ghost var before := owned - left;
        var done := PopulateOne(s, cluster, k, before);
        if !done {
          return false;
        }
        left := left - {k};
        assert owned - left == before + {k};
      }
      assert owned - left == owned;
      OwnedIs(s, cluster.key);
      InvSays(s, owned);
      return true;
    }

    /** The body of the loop over the cluster's machine deployments. */
    method PopulateOne(s: Server, cluster: GraphNode, k: Key, ghost before: set<Key>) returns (ok: bool)
      requires DeploymentsInv(s, before) && cluster in nodes && cluster.key.gvk == CLUSTER && k.gvk == DEPLOYMENT && k !in before
      modifies this`all, this`nodes, this`machineTemplates, this`machineDeployments, nodes
      ensures Keeps() && ok == Resolves(s, TemplateOf(s, k))
      ensures ok ==> nodes >= old(nodes) && fresh(nodes - old(nodes))
      ensures ok ==> DeploymentsInv(s, before + {k})
      ensures forall n: GraphNode | n in old(nodes) && n != cluster && n.key.gvk != DEPLOYMENT :: n.children == old(n.children)
    {
      hide Lookup, AddTo, TemplateOf, Resolves, HasTemplate;
      ghost var deployments := machineDeployments;
      var md := AddDeployment(s, cluster, k);
      label added:
      ok := AttachTemplate(s, md);
      if ok {
        assert forall name: string | name in deployments :: old@added(HasTemplate(deployments[name], s));
      }
    }

    /** Finds or adds the node of a machine deployment, below the cluster. */
    method AddDeployment(s: Server, cluster: GraphNode, k: Key) returns (md: GraphNode)
      requires Indexed() && cluster in nodes
      modifies this`all, this`nodes, this`machineDeployments, cluster
      ensures Indexed() && Keeps() && machineTemplates == old(machineTemplates)
      ensures md.key == k && nodes == old(nodes) + {md} && machineDeployments == old(machineDeployments)[k.name := md]
      ensures md !in old(nodes) ==> fresh(md) && md.children == map[]
      ensures forall n: GraphNode | n in old(nodes) && n != cluster && old(HasTemplate(n, s)) :: HasTemplate(n, s)
    {
      hide Lookup, AddTo, TemplateOf;
      md := new GraphNode(k);
      md := AddToAll(md);
      cluster.AddChild(md);
      machineDeployments := machineDeployments[md.key.name := md];
    }

    /** The rest of GetClusterGraph.  When the reference to the control plane names
        a node the graph has already, the template goes to the new node, not to
        the one the graph holds. */
    method Populate(s: Server, cluster: GraphNode, cp: GraphNode) returns (ok: bool)
      requires Indexed() && machineDeployments == map[] && cluster in nodes && cluster.key.gvk == CLUSTER
      requires controlPlane in nodes && controlPlane.key == cp.key && cp.children == map[] && cp != cluster
      requires forall n: GraphNode | n in nodes && n != cluster :: n.children == map[]
      modifies this`all, this`nodes, this`machineTemplates, this`machineDeployments, nodes, cp
      ensures ok <==> Complete(s, cluster.key, cp.key)
      ensures ok ==> DeploymentsInv(s, OwnedBy(s, cluster.key)) && controlPlane.key.gvk.kind == CONTROL_PLANE_KIND
      ensures ok ==> (HasTemplate(controlPlane, s) <==> controlPlane == cp)
      ensures ok && controlPlane != cp ==> controlPlane.children == map[]
    {
      hide Lookup, AddTo, TemplateOf, OwnedBy, Resolves;
      KindsDiffer();
      ok := PopulateControlPlane(s, cp);
      if !ok {
        return;
      }
      assert controlPlane != cp ==> controlPlane.children == map[];
      ghost var t := Lookup(all, TemplateOf(s, cp.key).value);
      ok := PopulateMachineDeployments(s, cluster);
      if ok && controlPlane == cp {
        assert Lookup(all, TemplateOf(s, cp.key).value) == t == Lookup(machineTemplates, t.value.key);
      } else if ok && HasTemplate(controlPlane, s) {
        AddedNotEmpty(map[], Lookup(all, TemplateOf(s, controlPlane.key).value).value);
      }
    }

    // ---------- walking

    /** The template a node's child stands for. */
    ghost function TemplateNode(n: GraphNode, s: Server): GraphNode
      requires HasTemplate(n, s)
      reads this, n
    {
      Lookup(all, TemplateOf(s, n.key).value).value
    }

    /** Calls back for each child that is a machine template, and stops quietly at
        the first kind of child that is not.  `fails` tells when the callback
        returns an error. */
    method WalkNode(n: GraphNode, fails: (GraphNode, GraphNode) -> bool, ghost s: Server)
      returns (calls: seq<(GraphNode, GraphNode)>, ok: bool)
      ensures n.children == map[] ==> calls == [] && ok
      ensures HasTemplate(n, s) ==> calls == [(n, TemplateNode(n, s))] && ok == !fails(n, TemplateNode(n, s))
    {
      calls, ok := [], true;
      var kinds := n.children.Keys;
      while kinds != {}
        invariant ok && kinds <= n.children.Keys
        invariant n.children == map[] ==> calls == []
        invariant HasTemplate(n, s) ==> n.children.Keys == {TemplateNode(n, s).key.gvk}
        invariant HasTemplate(n, s) ==> calls == if kinds == {} then [(n, TemplateNode(n, s))] else []
        invariant HasTemplate(n, s) && kinds == {} ==> !fails(n, TemplateNode(n, s))
        decreases kinds
      {
        var gvk :| gvk in kinds;
        if gvk !in machineTemplates {
          return;
        }
        kinds := kinds - {gvk};
        var names := n.children[gvk].Keys;
        while names != {}
          invariant ok && names <= n.children[gvk].Keys
          invariant HasTemplate(n, s) ==> n.children[gvk].Keys == {TemplateNode(n, s).key.name}
          invariant HasTemplate(n, s) ==> calls == if names == {} then [(n, TemplateNode(n, s))] else []
          invariant HasTemplate(n, s) && names == {} ==> !fails(n, TemplateNode(n, s))
          decreases names
        {
          var name :| name in names;
          names := names - {name};
          if name !in machineTemplates[gvk] {
            continue;
          }
          var t := machineTemplates[gvk][name];
          calls := calls + [(n, t)];
          if fails(n, t) {
            return calls, false;
          }
        }
      }
    }

    /** The machine deployments have their templates, and the control plane has its
        template or nothing below it. */
    ghost predicate Walkable(s: Server)
      reads this, controlPlane, machineDeployments.Values
    {
      && controlPlane.key.gvk != DEPLOYMENT
      && (HasTemplate(controlPlane, s) || controlPlane.children == map[])
      && forall name: string | name in machineDeployments ::
           machineDeployments[name].key == Key(DEPLOYMENT, name) && HasTemplate(machineDeployments[name], s)
    }

    /** What has been called back when the machine deployments in `left` are not
        walked yet. */
    ghost predicate Walked(s: Server, calls: seq<(GraphNode, GraphNode)>, left: set<string>)
      requires Walkable(s)
      reads this, controlPlane, machineDeployments.Values
    {
      && (forall i, j | 0 <= i < j < |calls| :: calls[i].0 != calls[j].0)
      && (forall e | e in calls :: IsEdge(s, e))
      && (forall e | e in calls :: e.0 == controlPlane || e.0.key.name !in left)
      && (HasTemplate(controlPlane, s) ==> (controlPlane, TemplateNode(controlPlane, s)) in calls)
      && (forall name: string | name in machineDeployments && name !in left ::
            (machineDeployments[name], TemplateNode(machineDeployments[name], s)) in calls)
    }

    /** An edge from the control plane or a machine deployment to its template. */
    ghost predicate IsEdge(s: Server, e: (GraphNode, GraphNode))
      requires Walkable(s)
      reads this, controlPlane, machineDeployments.Values
    {
      || (e.0 == controlPlane && HasTemplate(controlPlane, s) && e.1 == TemplateNode(controlPlane, s))
      || (e.0.key.name in machineDeployments && machineDeployments[e.0.key.name] == e.0
          && e.1 == TemplateNode(machineDeployments[e.0.key.name], s))
    }

    lemma WalkedFirst(s: Server)
      requires Walkable(s)
      ensures HasTemplate(controlPlane, s) ==> Walked(s, [(controlPlane, TemplateNode(controlPlane, s))], machineDeployments.Keys)
      ensures !HasTemplate(controlPlane, s) ==> Walked(s, [], machineDeployments.Keys)
    {
      hide Lookup, AddTo, TemplateOf, HasTemplate, TemplateNode;
      if HasTemplate(controlPlane, s) {
        assert (controlPlane, TemplateNode(controlPlane, s)) in [(controlPlane, TemplateNode(controlPlane, s))];
      }
    }

    lemma WalkedNext(s: Server, calls: seq<(GraphNode, GraphNode)>, left: set<string>, name: string)
      requires Walkable(s) && name in left && name in machineDeployments && Walked(s, calls, left)
      ensures Walked(s, calls + [(machineDeployments[name], TemplateNode(machineDeployments[name], s))], left - {name})
    {
      hide Lookup, AddTo, TemplateOf;
      var md := machineDeployments[name];
      forall e | e in calls
        ensures e.0 != md
      {
        assert IsEdge(s, e);
      }
    }

    /** On a walkable graph: one callback for each edge, and no other; an error
        ends the walk. */
    method WalkMachineTemplates(fails: (GraphNode, GraphNode) -> bool, ghost s: Server)
      returns (calls: seq<(GraphNode, GraphNode)>, ok: bool)
      ensures Walkable(s) && ok ==> Walked(s, calls, {}) && forall e | e in calls :: !fails(e.0, e.1)
      ensures Walkable(s) && !ok ==> calls != [] && fails(calls[|calls| - 1].0, calls[|calls| - 1].1)
    {
      hide Lookup, AddTo, TemplateOf, HasTemplate, TemplateNode, Walked, IsEdge;
      calls, ok := WalkNode(controlPlane, fails, s);
      if !ok {
        return;
      }
      if Walkable(s) {
        WalkedFirst(s);
      }
      var names := machineDeployments.Keys;
      while names != {}
        invariant ok && names <= machineDeployments.Keys
        invariant Walkable(s) ==> Walked(s, calls, names)
        invariant Walkable(s) ==> forall e | e in calls :: !fails(e.0, e.1)
        decreases names
      {
        var name :| name in names;
        if Walkable(s) {
          WalkedNext(s, calls, names, name);
        }
        names := names - {name};
        var more;
        more, ok := WalkNode(machineDeployments[name], fails, s);
        calls := calls + more;
        if !ok {
          return;
        }
      }
    }

    /** Each call is for the control plane or a machine deployment of the graph, with
        the node of the template it refers to. */
    lemma CallsAre(s: Server, calls: seq<(GraphNode, GraphNode)>)
      requires Indexed() && Walkable(s) && Walked(s, calls, {})
      ensures forall i | 0 <= i < |calls| ::
        && (calls[i].0 == controlPlane
            || (calls[i].0.key.gvk == DEPLOYMENT && calls[i].0.key.name in machineDeployments))
        && calls[i].0.key in s && s[calls[i].0.key].templateRef == Some(calls[i].1.key)
      ensures forall i, j | 0 <= i < j < |calls| :: calls[i].0 != calls[j].0
      ensures forall i, j | 0 <= i < |calls| && 0 <= j < |calls| && calls[i].1.key == calls[j].1.key :: calls[i].1 == calls[j].1
    {
      hide Lookup, AddTo;
      forall i | 0 <= i < |calls|
        ensures HasTemplate(calls[i].0, s) && calls[i].1 == TemplateNode(calls[i].0, s)
        ensures calls[i].0 == controlPlane
            || (calls[i].0.key.gvk == DEPLOYMENT && calls[i].0.key.name in machineDeployments)
      {
        assert IsEdge(s, calls[i]);
      }
    }

    /** So a complete walk visits each edge exactly once, the control plane's exactly
        if it has its template, and parents that name the same template are given the
        same node. */
    lemma WalkedIsComplete(s: Server, calls: seq<(GraphNode, GraphNode)>)
      requires Walkable(s) && Walked(s, calls, {})
      ensures CalledFor(calls, controlPlane) <==> HasTemplate(controlPlane, s)
      ensures forall name: string | name in machineDeployments :: CalledFor(calls, machineDeployments[name])
      ensures forall p: GraphNode, t: GraphNode :: (p, t) in calls <==> IsEdge(s, (p, t))
      ensures forall i, j | 0 <= i < j < |calls| :: calls[i] != calls[j]
      ensures forall i, j | 0 <= i < |calls| && 0 <= j < |calls| ::
        TemplateOf(s, calls[i].0.key) == TemplateOf(s, calls[j].0.key) ==> calls[i].1 == calls[j].1
    {
      forall i | 0 <= i < |calls|
        ensures HasTemplate(calls[i].0, s) && calls[i].1 == TemplateNode(calls[i].0, s)
      {
        assert IsEdge(s, calls[i]);
      }
      forall p: GraphNode, t: GraphNode | IsEdge(s, (p, t))
        ensures (p, t) in calls && CalledFor(calls, p)
      {
        var i :| 0 <= i < |calls| && calls[i] == (p, t);
      }
      forall name: string | name in machineDeployments
        ensures CalledFor(calls, machineDeployments[name])
      {
        assert IsEdge(s, (machineDeployments[name], TemplateNode(machineDeployments[name], s)));
      }
      if HasTemplate(controlPlane, s) {
        assert IsEdge(s, (controlPlane, TemplateNode(controlPlane, s)));
      }
    }
  }

  ghost predicate CalledFor(calls: seq<(GraphNode, GraphNode)>, parent: GraphNode) {
    exists i | 0 <= i < |calls| :: calls[i].0 == parent
  }

  function OwnedBy(s: Server, owner: Key): set<Key> {
    set k | k in s && k.gvk == DEPLOYMENT && owner in s[k].owners
  }

  lemma OwnedIs(s: Server, owner: Key)
    ensures forall k: Key :: k in OwnedBy(s, owner) <==> k in s && k.gvk == DEPLOYMENT && owner in s[k].owners
  {
  }

  /** The control plane is of the right kind, and it and every machine deployment
      of the cluster name a template the server has. */
  ghost predicate Complete(s: Server, cluster: Key, controlPlane: Key) {
    && controlPlane.gvk.kind == CONTROL_PLANE_KIND
    && Resolves(s, TemplateOf(s, controlPlane))
    && forall k: Key | k in OwnedBy(s, cluster) :: Resolves(s, TemplateOf(s, k))
  }

  /** Fetches what a reference names, as a new node. */
  method GetByRef(s: Server, ref: Option<Key>) returns (found: bool, n: GraphNode)
    ensures found == Resolves(s, ref)
    ensures fresh(n) && n.children == map[] && (found ==> n.key == ref.value)
  {
    if ref.None? || ref.value !in s {
      n := new GraphNode(Key(CLUSTER, ""));
      return false, n;
    }
    n := new GraphNode(ref.value);
    found := true;
  }

  /** The cluster and the infrastructure it refers to. */
  method FetchCluster(s: Server, key: Key) returns (ok: bool, g: ClusterGraph, cluster: GraphNode)
    ensures fresh(g) && fresh(g.nodes) && fresh(cluster)
    ensures ok <==> key in s && Resolves(s, s[key].infrastructureRef)
    ensures ok ==> g.Indexed() && g.machineDeployments == map[] && g.nodes == {cluster, g.infrastructure}
    ensures ok ==> cluster.key == key && key in s && s[key].infrastructureRef == Some(g.infrastructure.key)
    ensures ok ==> g.infrastructure != cluster ==> g.infrastructure.children == map[]
    ensures ok ==> forall k: Key :: Lookup(g.all, k).Some? <==> k == key || k == g.infrastructure.key
    ensures ok ==> (g.infrastructure.key == key ==> g.infrastructure == cluster)
  {
    hide Lookup, AddTo;
    cluster := new GraphNode(key);
    g := new ClusterGraph(cluster);
    if key !in s {
      return false, g, cluster;
    }
    var made := g.AddToAll(cluster);
    assert made == cluster;
    var found, infra := GetByRef(s, s[key].infrastructureRef);
    if !found {
      return false, g, cluster;
    }
    cluster.AddChild(infra);
    g.infrastructure := g.AddToAll(infra);
    ok := true;
  }

  /** The control plane the cluster refers to.  `cp` is the node made for the
      reference, which the graph holds unless it had one of that key. */
  method FetchControlPlane(s: Server, key: Key, g: ClusterGraph, cluster: GraphNode) returns (ok: bool, cp: GraphNode)
    requires g.Indexed() && g.nodes == {cluster, g.infrastructure} && cluster.key == key && key in s
    requires g.infrastructure != cluster ==> g.infrastructure.children == map[]
    requires forall k: Key :: Lookup(g.all, k).Some? <==> k == key || k == g.infrastructure.key
    modifies g`all, g`nodes, g`controlPlane, cluster
    ensures fresh(cp) && g.nodes >= old(g.nodes) && fresh(g.nodes - old(g.nodes))
    ensures ok == Resolves(s, s[key].controlPlaneRef)
    ensures ok ==> g.Indexed() && g.controlPlane in g.nodes && g.controlPlane.key == cp.key && cp.children == map[]
    ensures ok ==> forall n: GraphNode | n in g.nodes && n != cluster :: n.children == map[]
    ensures ok ==> s[key].controlPlaneRef == Some(cp.key)
    ensures ok && cp.key != key ==> (g.controlPlane == cp <==> g.infrastructure.key != cp.key)
  {
    hide Lookup, AddTo;
    var found;
    found, cp := GetByRef(s, s[key].controlPlaneRef);
    if !found {
      return false, cp;
    }
    cluster.AddChild(cp);
    g.controlPlane := g.AddToAll(cp);
    ok := true;
  }

  /** Everything that is looked for is there: the cluster, its infrastructure, its
      control plane of the right kind, and the templates of the control plane and of
      the machine deployments that have the cluster among their owners. */
  ghost predicate Builds(s: Server, name: string) {
    var key := Key(CLUSTER, name);
    && key in s
    && s[key].infrastructureRef.Some? && s[key].infrastructureRef.value in s
    && s[key].controlPlaneRef.Some?
    && var cp := s[key].controlPlaneRef.value;
       && cp in s && cp.gvk.kind == CONTROL_PLANE_KIND
       && s[cp].templateRef.Some? && s[cp].templateRef.value in s
       && forall k: Key | k in s && k.gvk == DEPLOYMENT && key in s[k].owners ::
            s[k].templateRef.Some? && s[k].templateRef.value in s
  }

  lemma BuildsIs(s: Server, name: string)
    ensures var key := Key(CLUSTER, name);
      Builds(s, name) <==>
        && key in s && Resolves(s, s[key].infrastructureRef) && Resolves(s, s[key].controlPlaneRef)
        && Complete(s, key, s[key].controlPlaneRef.value)
  {
    OwnedIs(s, Key(CLUSTER, name));
  }

  /** Infrastructure and control plane are of different kinds or names. */
  ghost predicate ReferredApart(s: Server, name: string)
    requires Key(CLUSTER, name) in s
  {
    s[Key(CLUSTER, name)].infrastructureRef != s[Key(CLUSTER, name)].controlPlaneRef
  }

  /** GetClusterGraph: it fails exactly when something it looks for is missing, it
      finds exactly the machine deployments that the cluster owns, and the control
      plane has its template exactly when it and the infrastructure are referred to
      apart. */
  method GetClusterGraph(s: Server, name: string) returns (ok: bool, g: ClusterGraph)
    ensures ok <==> Builds(s, name)
    ensures ok ==>
      && s[Key(CLUSTER, name)].controlPlaneRef == Some(g.controlPlane.key)
      && (forall n: string :: n in g.machineDeployments <==>
            Key(DEPLOYMENT, n) in s && Key(CLUSTER, name) in s[Key(DEPLOYMENT, n)].owners)
      && g.Indexed() && g.Walkable(s)
      && (g.HasTemplate(g.controlPlane, s) <==> ReferredApart(s, name))
  {
    hide Lookup, AddTo, TemplateOf, OwnedBy, Complete, Builds;
    KindsDiffer();
    BuildsIs(s, name);
    OwnedIs(s, Key(CLUSTER, name));
    var cluster, cp;
    ok, g, cluster := FetchCluster(s, Key(CLUSTER, name));
    if !ok {
      return;
    }
    ok, cp := FetchControlPlane(s, Key(CLUSTER, name), g, cluster);
    if !ok {
      return;
    }
    ok := g.Populate(s, cluster, cp);
  }

  /** A walk over the graph of a cluster calls back with the control plane and with
      machine deployments the cluster owns, each once and with the template it refers
      to.  Without an error that is every machine deployment the cluster owns, and the
      control plane exactly when it and the infrastructure are referred to apart; an
      error ends the walk. */
  method WalkCluster(s: Server, name: string, fails: (GraphNode, GraphNode) -> bool)
    returns (built: bool, g: ClusterGraph, calls: seq<(GraphNode, GraphNode)>, ok: bool)
    ensures built <==> Builds(s, name)
    ensures built && ok ==>
      && s[Key(CLUSTER, name)].controlPlaneRef == Some(g.controlPlane.key)
      && (CalledFor(calls, g.controlPlane) <==>
            s[Key(CLUSTER, name)].infrastructureRef != s[Key(CLUSTER, name)].controlPlaneRef)
      && (forall n: string | Key(DEPLOYMENT, n) in s && Key(CLUSTER, name) in s[Key(DEPLOYMENT, n)].owners ::
            n in g.machineDeployments && g.machineDeployments[n].key == Key(DEPLOYMENT, n) && CalledFor(calls, g.machineDeployments[n]))
      && (forall i | 0 <= i < |calls| ::
            && (calls[i].0 == g.controlPlane
                || (calls[i].0.key in s && calls[i].0.key.gvk == DEPLOYMENT && Key(CLUSTER, name) in s[calls[i].0.key].owners))
            && calls[i].0.key in s && s[calls[i].0.key].templateRef == Some(calls[i].1.key)
            && !fails(calls[i].0, calls[i].1))
      && (forall i, j | 0 <= i < j < |calls| :: calls[i].0 != calls[j].0)
      && (forall i, j | 0 <= i < |calls| && 0 <= j < |calls| && calls[i].1.key == calls[j].1.key :: calls[i].1 == calls[j].1)
    ensures built && !ok ==> calls != [] && fails(calls[|calls| - 1].0, calls[|calls| - 1].1)
  {
    hide Lookup, AddTo, TemplateOf, OwnedBy, Complete, Builds;
    calls, ok := [], false;
    built, g := GetClusterGraph(s, name);
    if !built {
      return;
    }
    calls, ok := g.WalkMachineTemplates(fails, s);
    if ok {
      g.WalkedIsComplete(s, calls);
      g.CallsAre(s, calls);
    }
  }

  /** There are clusters that refer to both alike and are built all the same. */
  lemma ReferredAlike() returns (s: Server, name: string)
    ensures Builds(s, name) && !ReferredApart(s, name)
  {
    name := "c";
    var cp := Key(Gvk("controlplane.cluster.x-k8s.io/v1beta1", CONTROL_PLANE_KIND), "c-control-plane");
    var template := Key(Gvk("infrastructure.cluster.x-k8s.io/v1beta2", "OCIMachineTemplate"), "c-template");
    s := map[
      Key(CLUSTER, name) := Object(Some(cp), Some(cp), None, {}),
      cp := Object(None, None, Some(template), {}),
      template := Object(None, None, None, {})];
    KindsDiffer();
    assert cp.gvk.kind != CLUSTER.kind && template.gvk.kind[0] == 'O' && CONTROL_PLANE_KIND[0] == 'K' && CLUSTER.kind[0] == 'C';
  }
}
