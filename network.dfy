/** The trusted-relay key network: nodes with pairwise pre-shared secrets,
    the ranking of candidate paths by trust and latency, path validation,
    and the distribution of a key along a path by hop-by-hop repeating-key
    XOR under hop keys derived from the shared secrets.  `time.time()` is
    the parameter `now` (with `nowText` its string form), the simple paths
    networkx enumerates are the parameter `candidates`, and SHA-256 is a
    parameter. */
module Network {
  import opened Wrappers
  import opened BitVector
  import opened Encoding
  import opened Crypto
  import Sorting

  datatype NodeRole = Source | Destination | Relay | TrustedRelay

  /** A node: its shared secrets per neighbour, its keys per session, and
      its neighbour set. */
  datatype NetworkNode = NetworkNode(
    nodeId: string,
    role: NodeRole,
    address: string,
    sharedSecrets: map<string, Bytes>,
    keys: map<string, Bytes>,
    neighbors: set<string>)

  datatype NetworkPath = NetworkPath(path: seq<string>, hops: int, trustLevel: real, latency: real)

  datatype NetworkKey = NetworkKey(
    key: Bytes,
    sessionId: string,
    sourceNode: string,
    destinationNode: string,
    path: seq<string>,
    timestamp: int,
    ttl: int)

  /** `NetworkKey.is_expired` at time `now`. */
  predicate IsExpired(k: NetworkKey, now: real)
  {
    now - k.timestamp as real > k.ttl as real
  }

  /** The latency of each edge, stored under both orders of its ends. */
  type Links = map<(string, string), real>

  /** The node `add_node` creates: no secrets, keys or neighbours, and the
      node id as address when none is given. */
  function NewNode(id: string, role: NodeRole, address: string): NetworkNode
  {
    NetworkNode(id, role, if address == "" then id else address, map[], map[], {})
  }

  /** One side of `add_link`: the other end becomes a neighbour sharing the
      secret. */
  function Join(node: NetworkNode, other: string, secret: Bytes): NetworkNode
  {
    node.(neighbors := node.neighbors + {other}, sharedSecrets := node.sharedSecrets[other := secret])
  }

  /** The node table after `add_link` joins a and b. */
  function Joined(nodes: map<string, NetworkNode>, a: string, b: string, secret: Bytes): (after: map<string, NetworkNode>)
    requires a in nodes && b in nodes
    ensures after.Keys == nodes.Keys
  {
    var m := nodes[a := Join(nodes[a], b, secret)];
    m[b := Join(m[b], a, secret)]
  }

  /** After `add_link` each end is the other's neighbour with the shared
      secret, so the link is a valid path both ways; no other node
      changes. */
  lemma JoinedLinks(nodes: map<string, NetworkNode>, a: string, b: string, secret: Bytes)
    requires a in nodes && b in nodes
    ensures var after := Joined(nodes, a, b, secret);
      after[a] == Join(nodes[a], b, secret) && after[b] == Join(nodes[b], a, secret) &&
      (forall id :: id in nodes && id != a && id != b ==> after[id] == nodes[id]) &&
      ValidatePath(after, [a, b]) == Success(true) && ValidatePath(after, [b, a]) == Success(true)
  {
    var after := Joined(nodes, a, b, secret);
    if a == b {
      var n := nodes[a];
      assert n.neighbors + {a} + {a} == n.neighbors + {a};
      assert n.sharedSecrets[a := secret][a := secret] == n.sharedSecrets[a := secret];
    }
    ValidatePathLinked(after, [a, b]);
    ValidatePathLinked(after, [b, a]);
  }

  /** The graph joins known nodes only, and every edge is undirected. */
  ghost predicate Graph(nodes: map<string, NetworkNode>, links: Links)
  {
    forall e :: e in links ==>
      e.0 in nodes && e.1 in nodes && (e.1, e.0) in links && links[(e.1, e.0)] == links[e]
  }

  // ------------------------------------------------------ repeating-key XOR

  /** `key * t` */
  function Repeat(key: Bytes, t: nat): (r: Bytes)
    ensures |r| == |key| * t
  {
    if t == 0 then [] else key + Repeat(key, t - 1)
  }

  lemma {:induction false} RepeatAt(key: Bytes, t: nat, i: nat)
    requires |key| > 0 && i < |key| * t
    ensures Repeat(key, t)[i] == key[i % |key|]
    decreases t
  {
    var L := |key|;
    if t == 0 {
      assert false;
    } else {
      var rest := Repeat(key, t - 1);
      assert Repeat(key, t) == key + rest;
      if i < L {
        DivModUnique(i, L, 0, i);
      } else {
        MulSucc(L, t - 1);
        RepeatAt(key, t - 1, i - L);
        ModShift(i, L);
      }
    }
  }

  /** One more copy of L adds L. */
  lemma MulSucc(L: nat, k: nat)
    ensures L * (k + 1) == L * k + L
  {
  }

  /** Taking L away from i >= L leaves its remainder modulo L alone. */
  lemma ModShift(i: int, L: int)
    requires L > 0 && i >= L
    ensures i % L == (i - L) % L
  {
    var q, r := (i - L) / L, (i - L) % L;
    assert i - L == L * q + r;
    MulSucc(L, q);
    DivModUnique(i, L, q + 1, r);
  }

  /** `len(data) // len(key) + 1` copies of the key cover the data. */
  lemma RepeatCovers(key: Bytes, n: nat)
    requires |key| > 0
    ensures n <= |key| * (n / |key| + 1)
  {
    var q := n / |key|;
    assert n == |key| * q + n % |key|;
    assert |key| * (q + 1) == |key| * q + |key|;
  }

  /** `(key * (len(data) // len(key) + 1))[:len(data)]`: the key repeated
      cyclically over n positions. */
  function KeyStream(key: Bytes, n: nat): (s: Bytes)
    requires |key| > 0
    ensures |s| == n && forall i :: 0 <= i < n ==> s[i] == key[i % |key|]
  {
    var t := n / |key| + 1;
    RepeatCovers(key, n);
    forall i | 0 <= i < n
      ensures Repeat(key, t)[i] == key[i % |key|]
    {
      RepeatAt(key, t, i);
    }
    Repeat(key, t)[..n]
  }

  /** `NetworkQKD._xor_encrypt`: each byte XORed with the key byte at the
      same position modulo the key length; `len(data) // len(key)` raises
      on an empty key. */
  function XorEncrypt(data: Bytes, key: Bytes): (r: Result<Bytes>)
    ensures r.Failure? <==> |key| == 0
    ensures r.Failure? ==> r.error == ZeroDivisionError
    ensures r.Success? ==> |r.value| == |data|
    ensures r.Success? ==> forall i :: 0 <= i < |data| ==> r.value[i] == data[i] ^ key[i % |key|]
  {
    if |key| == 0 then Failure(ZeroDivisionError)
    else Success(XorWith(data, KeyStream(key, |data|)))
  }

  /** `NetworkQKD._xor_decrypt`, the same operation: encrypting its result
      gives the input back. */
  function XorDecrypt(data: Bytes, key: Bytes): (r: Result<Bytes>)
    ensures r.Failure? <==> |key| == 0
    ensures r.Success? ==> XorEncrypt(r.value, key) == Success(data)
  {
    if |key| == 0 then XorEncrypt(data, key)
    else
      XorWithTwice(data, KeyStream(key, |data|));
      XorEncrypt(data, key)
  }

  /** Decryption undoes encryption under any non-empty key. */
  lemma XorRoundTrip(data: Bytes, key: Bytes)
    requires |key| > 0
    ensures XorEncrypt(data, key).Success?
    ensures XorDecrypt(XorEncrypt(data, key).value, key) == Success(data)
  {
    XorWithTwice(data, KeyStream(key, |data|));
  }

  // ------------------------------------------------------------ path metrics

  /** Every consecutive pair of the path is an edge. */
  ghost predicate OnEdges(links: Links, path: seq<string>)
  {
    forall i, j :: 0 <= i && j == i + 1 && j < |path| ==> (path[i], path[j]) in links
  }

  /** A path of the graph: known nodes joined by edges. */
  ghost predicate Walk(nodes: map<string, NetworkNode>, links: Links, path: seq<string>)
  {
    (forall i :: 0 <= i < |path| ==> path[i] in nodes) && OnEdges(links, path)
  }

  /** `NetworkQKD._calculate_path_latency`: the sum of the edge latencies,
      0 for a path without edges, never negative when no edge is. */
  function PathLatency(links: Links, path: seq<string>): (total: real)
    requires OnEdges(links, path)
    ensures |path| <= 1 ==> total == 0.0
    ensures (forall e :: e in links ==> links[e] >= 0.0) ==> total >= 0.0
  {
    if |path| <= 1 then 0.0
    else
      OnEdgesSlice(links, path, 0, |path| - 1);
      PathLatency(links, path[..|path| - 1]) + links[(path[|path| - 2], path[|path| - 1])]
  }

  /** A piece of a path of the graph is a path of the graph. */
  lemma OnEdgesSlice(links: Links, path: seq<string>, a: nat, b: nat)
    requires OnEdges(links, path) && a <= b <= |path|
    ensures OnEdges(links, path[a..b])
  {
    forall i, j | 0 <= i && j == i + 1 && j < b - a
      ensures (path[a..b][i], path[a..b][j]) in links
    {
      assert path[a..b][i] == path[a + i] && path[a..b][j] == path[a + j];
    }
  }

  /** The latency of a path is the latency up to any of its nodes plus the
      latency from there on. */
  lemma {:induction false} PathLatencySplit(links: Links, path: seq<string>, j: nat)
    requires OnEdges(links, path) && j < |path|
    ensures OnEdges(links, path[..j + 1]) && OnEdges(links, path[j..]) &&
      PathLatency(links, path) == PathLatency(links, path[..j + 1]) + PathLatency(links, path[j..])
    decreases |path|
  {
    OnEdgesSlice(links, path, 0, j + 1);
    OnEdgesSlice(links, path, j, |path|);
    if j == |path| - 1 {
      assert path[..j + 1] == path;
    } else {
      var n := |path|;
      var front := path[..n - 1];
      var tail := path[j..];
      OnEdgesSlice(links, path, 0, n - 1);
      PathLatencySplit(links, front, j);
      assert front[..j + 1] == path[..j + 1];
      assert tail[..|tail| - 1] == front[j..];
      var last := links[(path[n - 2], path[n - 1])];
      assert PathLatency(links, path) == PathLatency(links, front) + last;
      assert PathLatency(links, tail) == PathLatency(links, front[j..]) + last by {
        assert tail[|tail| - 2] == path[n - 2] && tail[|tail| - 1] == path[n - 1];
      }
    }
  }

  /** The trust factor of a relay: 0.9 for a trusted relay, 0.7 otherwise. */
  function RoleFactor(role: NodeRole): real
  {
    if role == TrustedRelay then 0.9 else 0.7
  }

  /** The product of the relay factors of the listed nodes. */
  function TrustProduct(nodes: map<string, NetworkNode>, relays: seq<string>): (t: real)
    requires forall i :: 0 <= i < |relays| ==> relays[i] in nodes
    ensures 0.0 < t <= 1.0
    ensures relays != [] ==> t <= 0.9
  {
    if relays == [] then 1.0
    else TrustProduct(nodes, relays[..|relays| - 1]) * RoleFactor(nodes[relays[|relays| - 1]].role)
  }

  /** `NetworkQKD._calculate_path_trust`: 1.0 for a direct path (and for a
      path without interior nodes), otherwise the product of the factors
      of the interior nodes, which is at most 0.9. */
  function PathTrust(nodes: map<string, NetworkNode>, path: seq<string>): (t: real)
    requires forall i :: 0 < i < |path| - 1 ==> path[i] in nodes
    ensures 0.0 < t <= 1.0
    ensures t == 1.0 <==> |path| <= 2
  {
    if |path| <= 2 then 1.0 else TrustProduct(nodes, path[1..|path| - 1])
  }

  /** The metrics `find_paths` attaches to a path. */
  function Score(nodes: map<string, NetworkNode>, links: Links, path: seq<string>): (p: NetworkPath)
    requires Walk(nodes, links, path)
    ensures p.path == path && p.hops == |path| - 1
    ensures p.trustLevel == PathTrust(nodes, path) && p.latency == PathLatency(links, path)
  {
    NetworkPath(path, |path| - 1, PathTrust(nodes, path), PathLatency(links, path))
  }

  /** The sort key `(-trust_level, latency, hops)` as a "comes before"
      relation. */
  predicate Better(a: NetworkPath, b: NetworkPath)
  {
    a.trustLevel > b.trustLevel ||
    (a.trustLevel == b.trustLevel &&
      (a.latency < b.latency || (a.latency == b.latency && a.hops < b.hops)))
  }

  lemma BetterAsymmetric()
    ensures Sorting.Asymmetric(Better)
  {
  }

  /** The scored candidates in the order they were enumerated. */
  function Scored(nodes: map<string, NetworkNode>, links: Links, candidates: seq<seq<string>>): (s: seq<NetworkPath>)
    requires forall p :: p in candidates ==> Walk(nodes, links, p)
    ensures |s| == |candidates| && forall i :: 0 <= i < |s| ==> s[i].path == candidates[i]
  {
    seq(|candidates|, i requires 0 <= i < |candidates| => Score(nodes, links, candidates[i]))
  }

  /** The list `find_paths` builds on a cache miss: the scored candidates,
      stably sorted by the key. */
  function Ranked(nodes: map<string, NetworkNode>, links: Links, candidates: seq<seq<string>>): (r: seq<NetworkPath>)
    requires forall p :: p in candidates ==> Walk(nodes, links, p)
    ensures |r| == |candidates|
  {
    Sorting.Sort(Scored(nodes, links, candidates), Better)
  }

  /** The ranking is a reordering of the scored candidates in which trust
      never increases, and among equal trust latency never increases. */
  lemma RankedOrder(nodes: map<string, NetworkNode>, links: Links, candidates: seq<seq<string>>)
    requires forall p :: p in candidates ==> Walk(nodes, links, p)
    ensures var r := Ranked(nodes, links, candidates);
      multiset(r) == multiset(Scored(nodes, links, candidates)) &&
      forall i :: 0 <= i < |r| - 1 ==>
        r[i].trustLevel >= r[i + 1].trustLevel &&
        (r[i].trustLevel == r[i + 1].trustLevel ==> r[i].latency <= r[i + 1].latency)
  {
    BetterAsymmetric();
    Sorting.SortSorted(Scored(nodes, links, candidates), Better);
  }

  /** When the candidates run from s to d != s and include the direct edge,
      the direct path ranks first: its trust 1.0 exceeds that of every
      relayed path. */
  lemma DirectPathFirst(nodes: map<string, NetworkNode>, links: Links, candidates: seq<seq<string>>, s: string, d: string)
    requires forall p :: p in candidates ==> Walk(nodes, links, p)
    requires s != d && [s, d] in candidates
    requires forall p :: p in candidates ==> |p| >= 2 && p[0] == s && p[|p| - 1] == d
    ensures var r := Ranked(nodes, links, candidates);
      |r| > 0 && r[0].path == [s, d] && r[0].trustLevel == 1.0 && r[0].hops == 1
  {
    var scored := Scored(nodes, links, candidates);
    var direct := Score(nodes, links, [s, d]);
    var k :| 0 <= k < |candidates| && candidates[k] == [s, d];
    assert scored[k] == direct;
    forall y | y in scored && y != direct
      ensures Better(direct, y)
    {
      var j :| 0 <= j < |scored| && scored[j] == y;
      var p := candidates[j];
      assert scored[j] == Score(nodes, links, p);
      assert p != [s, d];
      assert |p| >= 3;
    }
    BetterAsymmetric();
    Sorting.SortLeast(scored, direct, Better);
  }

  // -------------------------------------------------------------- validation

  /** The checks of `_validate_path` from position i on. */
  function ValidFrom(nodes: map<string, NetworkNode>, path: seq<string>, i: nat): Result<bool>
    decreases |path| - i
  {
    if i + 1 >= |path| then Success(true)
    else if path[i] !in nodes || path[i + 1] !in nodes then Failure(KeyError)
    else if path[i + 1] !in nodes[path[i]].neighbors then Success(false)
    else if path[i + 1] !in nodes[path[i]].sharedSecrets then Success(false)
    else ValidFrom(nodes, path, i + 1)
  }

  /** `NetworkQKD._validate_path`; looking up a node that is not in the
      network raises a KeyError. */
  function ValidatePath(nodes: map<string, NetworkNode>, path: seq<string>): Result<bool>
  {
    if |path| < 2 then Success(false) else ValidFrom(nodes, path, 0)
  }

  /** At least two known nodes, each consecutive pair neighbours with a
      shared secret. */
  ghost predicate Linked(nodes: map<string, NetworkNode>, path: seq<string>)
  {
    |path| >= 2 &&
    (forall i :: 0 <= i < |path| ==> path[i] in nodes) &&
    forall i, j :: 0 <= i && j == i + 1 && j < |path| ==>
      path[j] in nodes[path[i]].neighbors && path[j] in nodes[path[i]].sharedSecrets
  }

  lemma {:induction false} ValidFromLinked(nodes: map<string, NetworkNode>, path: seq<string>, i: nat)
    requires i + 1 < |path|
    ensures ValidFrom(nodes, path, i) == Success(true) <==>
      (forall j :: i <= j < |path| ==> path[j] in nodes) &&
      forall j, k :: i <= j && k == j + 1 && k < |path| ==>
        path[k] in nodes[path[j]].neighbors && path[k] in nodes[path[j]].sharedSecrets
    ensures ValidFrom(nodes, path, i).Failure? ==> exists j :: i <= j < |path| && path[j] !in nodes
    ensures (forall j :: i <= j < |path| ==> path[j] in nodes) ==> ValidFrom(nodes, path, i).Success?
    decreases |path| - i
  {
    if i + 2 < |path| {
      ValidFromLinked(nodes, path, i + 1);
    }
  }

  /** `_validate_path` accepts exactly the linked paths, and raises only
      when the path names an unknown node. */
  lemma ValidatePathLinked(nodes: map<string, NetworkNode>, path: seq<string>)
    ensures ValidatePath(nodes, path) == Success(true) <==> Linked(nodes, path)
    ensures ValidatePath(nodes, path).Failure? ==>
      ValidatePath(nodes, path).error == KeyError && exists j :: 0 <= j < |path| && path[j] !in nodes
    ensures (forall j :: 0 <= j < |path| ==> path[j] in nodes) ==> ValidatePath(nodes, path).Success?
  {
    if |path| >= 2 {
      ValidFromLinked(nodes, path, 0);
      ValidFromKeyError(nodes, path, 0);
    }
  }

  lemma {:induction false} ValidFromKeyError(nodes: map<string, NetworkNode>, path: seq<string>, i: nat)
    ensures ValidFrom(nodes, path, i).Failure? ==> ValidFrom(nodes, path, i).error == KeyError
    decreases |path| - i
  {
    if i + 1 < |path| {
      ValidFromKeyError(nodes, path, i + 1);
    }
  }

  // -------------------------------------------------------------- the relay

  /** What the relay looks up: every node that starts a hop is known and
      shares a secret with the next node. */
  ghost predicate Relayable(nodes: map<string, NetworkNode>, path: seq<string>)
  {
    Starts(nodes, path) &&
    forall i, j :: 0 <= i && j == i + 1 && j < |path| ==> path[j] in nodes[path[i]].sharedSecrets
  }

  /** Every node that starts a hop is known. */
  ghost predicate Starts(nodes: map<string, NetworkNode>, path: seq<string>)
  {
    forall i :: 0 <= i < |path| - 1 ==> path[i] in nodes
  }

  /** The fallback of `NetworkQKD._generate_hop_key`: SHA-256 of the shared
      secret followed by the UTF-8 encoding of "node1:node2:session". */
  function HopKey(nodes: map<string, NetworkNode>, node1: string, node2: string, sessionId: string, sha256: Sha256): (k: Bytes)
    requires node1 in nodes && node2 in nodes[node1].sharedSecrets
    ensures |k| == 32
  {
    sha256(nodes[node1].sharedSecrets[node2] + Utf8(node1 + ":" + node2 + ":" + sessionId))[..32]
  }

  /** The session of hop i: `f"{session_id}_hop_{i}"`. */
  function HopSession(sessionId: string, i: nat): string
  {
    sessionId + "_hop_" + NatToString(i)
  }

  /** The key under which a relay keeps its masked copy. */
  function EncryptedSlot(sessionId: string): string
  {
    sessionId + "_encrypted"
  }

  /** The key masked with the key of hop i. */
  function Masked(nodes: map<string, NetworkNode>, path: seq<string>, key: Bytes, sessionId: string, sha256: Sha256, i: nat): (m: Bytes)
    requires Relayable(nodes, path) && i < |path| - 1
    ensures |m| == |key|
    ensures var hop := HopKey(nodes, path[i], path[i + 1], HopSession(sessionId, i), sha256);
      forall j :: 0 <= j < |key| ==> m[j] == key[j] ^ hop[j % 32]
  {
    XorEncrypt(key, HopKey(nodes, path[i], path[i + 1], HopSession(sessionId, i), sha256)).value
  }

  /** The number of hops of a path. */
  function Hops(path: seq<string>): nat
  {
    if |path| == 0 then 0 else |path| - 1
  }

  /** The masked copy of each hop. */
  function Masks(nodes: map<string, NetworkNode>, path: seq<string>, key: Bytes, sessionId: string, sha256: Sha256): (masks: seq<Bytes>)
    requires Relayable(nodes, path)
    ensures |masks| == Hops(path)
  {
    seq(Hops(path), i requires 0 <= i < Hops(path) => Masked(nodes, path, key, sessionId, sha256, i))
  }

  /** The node table after the first n hops of the relay: each hop but the
      last leaves its masked copy under `slot` at the node it reaches. */
  function Stored(nodes: map<string, NetworkNode>, path: seq<string>, slot: string, masks: seq<Bytes>, n: nat): (after: map<string, NetworkNode>)
    requires Starts(nodes, path) && n <= Hops(path) && |masks| == Hops(path)
    ensures after.Keys == nodes.Keys
    decreases n
  {
    if n == 0 then nodes
    else
      var prev := Stored(nodes, path, slot, masks, n - 1);
      var i := n - 1;
      if i < |path| - 2 then
        var relay := prev[path[i + 1]];
        prev[path[i + 1] := relay.(keys := relay.keys[slot := masks[i]])]
      else prev
  }

  /** The relay changes the keys of nodes and nothing else. */
  lemma {:induction false} StoredKeysOnly(nodes: map<string, NetworkNode>, path: seq<string>, slot: string, masks: seq<Bytes>, n: nat, id: string)
    requires Starts(nodes, path) && n <= Hops(path) && |masks| == Hops(path) && id in nodes
    ensures Stored(nodes, path, slot, masks, n)[id] == nodes[id].(keys := Stored(nodes, path, slot, masks, n)[id].keys)
    decreases n
  {
    if n > 0 {
      StoredKeysOnly(nodes, path, slot, masks, n - 1, id);
    }
  }

  /** The node table after the whole relay. */
  function Relayed(nodes: map<string, NetworkNode>, path: seq<string>, key: Bytes, sessionId: string, sha256: Sha256): (after: map<string, NetworkNode>)
    requires Relayable(nodes, path)
    ensures after.Keys == nodes.Keys
  {
    Stored(nodes, path, EncryptedSlot(sessionId), Masks(nodes, path, key, sessionId, sha256), Hops(path))
  }

  /** A node that no hop among the first n reaches keeps its entry. */
  lemma {:induction false} StoredUntouched(nodes: map<string, NetworkNode>, path: seq<string>, slot: string, masks: seq<Bytes>, n: nat, id: string)
    requires Starts(nodes, path) && n <= Hops(path) && |masks| == Hops(path) && id in nodes
    requires forall i :: 0 < i <= n && i < |path| - 1 ==> path[i] != id
    ensures Stored(nodes, path, slot, masks, n)[id] == nodes[id]
    decreases n
  {
    if n > 0 {
      StoredUntouched(nodes, path, slot, masks, n - 1, id);
      if n - 1 < |path| - 2 {
        assert path[n] != id;
      }
    }
  }

  /** From hop j + 1 on, the node hop j reached holds that hop's masked
      copy, when no other hop reaches it. */
  lemma {:induction false} StoredAt(nodes: map<string, NetworkNode>, path: seq<string>, slot: string, masks: seq<Bytes>, n: nat, j: nat)
    requires Starts(nodes, path) && n <= Hops(path) && |masks| == Hops(path)
    requires j < n && j < |path| - 2
    requires forall a, b :: 0 <= a < b < |path| ==> path[a] != path[b]
    ensures Stored(nodes, path, slot, masks, n)[path[j + 1]].keys == nodes[path[j + 1]].keys[slot := masks[j]]
    decreases n
  {
    if n == j + 1 {
      StoredUntouched(nodes, path, slot, masks, j, path[j + 1]);
    } else {
      StoredAt(nodes, path, slot, masks, n - 1, j);
      if n - 1 < |path| - 2 {
        assert path[n] != path[j + 1];
      }
    }
  }

  /** On a path without repeated nodes, after the relay every interior node
      holds the key masked by the hop that reached it, and every other node,
      the two ends included, is untouched. */
  lemma RelayStoresMaskedKey(nodes: map<string, NetworkNode>, path: seq<string>, key: Bytes, sessionId: string, sha256: Sha256)
    requires Relayable(nodes, path)
    requires forall a, b :: 0 <= a < b < |path| ==> path[a] != path[b]
    ensures var after := Relayed(nodes, path, key, sessionId, sha256);
      (forall j :: 0 <= j < |path| - 2 ==>
        after[path[j + 1]].keys == nodes[path[j + 1]].keys[EncryptedSlot(sessionId) := Masked(nodes, path, key, sessionId, sha256, j)]) &&
      (forall id :: id in nodes && (id !in path || id == path[0] || id == path[|path| - 1]) ==> after[id] == nodes[id])
  {
    var masks := Masks(nodes, path, key, sessionId, sha256);
    var slot := EncryptedSlot(sessionId);
    forall j | 0 <= j < |path| - 2
      ensures Stored(nodes, path, slot, masks, Hops(path))[path[j + 1]].keys ==
        nodes[path[j + 1]].keys[slot := Masked(nodes, path, key, sessionId, sha256, j)]
    {
      StoredAt(nodes, path, slot, masks, Hops(path), j);
    }
    forall id | id in nodes && (id !in path || id == path[0] || id == path[|path| - 1])
      ensures Stored(nodes, path, slot, masks, Hops(path))[id] == nodes[id]
    {
      StoredUntouched(nodes, path, slot, masks, Hops(path), id);
    }
  }

  /** The node table after the destination stores the key. */
  function Delivered(nodes: map<string, NetworkNode>, destination: string, sessionId: string, key: Bytes): (after: map<string, NetworkNode>)
    requires destination in nodes
    ensures after.Keys == nodes.Keys
    ensures sessionId in after[destination].keys && after[destination].keys[sessionId] == key
  {
    nodes[destination := nodes[destination].(keys := nodes[destination].keys[sessionId := key])]
  }

  /** The session id `distribute_key` draws when none is given: the first 16
      hex digits of SHA-256 of "source:destination:time". */
  function GeneratedSessionId(sourceId: string, destinationId: string, nowText: string, sha256: Sha256): (sid: string)
    ensures |sid| == 16 && forall i :: 0 <= i < 16 ==> IsHexDigit(sid[i])
  {
    ToHex(sha256(Utf8(sourceId + ":" + destinationId + ":" + nowText)))[..16]
  }

  /** The path `distribute_key` tries: the preferred path when one is given,
      else the best path `find_paths` returns, else none. */
  function ChosenPath(nodes: map<string, NetworkNode>, links: Links, cache: map<(string, string), seq<NetworkPath>>,
                      sourceId: string, destinationId: string, preferredPath: seq<string>, candidates: seq<seq<string>>): seq<string>
    requires preferredPath == [] && (sourceId, destinationId) !in cache ==> forall p :: p in candidates ==> Walk(nodes, links, p)
  {
    if preferredPath != [] then preferredPath
    else
      var paths := if (sourceId, destinationId) in cache then cache[(sourceId, destinationId)]
                   else Ranked(nodes, links, candidates);
      if paths == [] then [] else paths[0].path
  }

  /** The `NetworkQKD` object seen from one node: the node table, the graph's
      edge latencies, the distributed keys and the path cache. */
  class NetworkQkd {
    const nodeId: string
    const role: NodeRole
    const address: string
    var nodes: map<string, NetworkNode>
    var links: Links
    var distributedKeys: map<string, NetworkKey>
    var pathCache: map<(string, string), seq<NetworkPath>>

    ghost predicate Valid()
      reads this
    {
      Graph(nodes, links)
    }

    /** `NetworkQKD(node_id, role, address)`: the network holds only this
        node. */
    constructor (nodeId: string, role: NodeRole, address: string)
      ensures this.nodeId == nodeId && this.role == role
      ensures this.address == if address == "" then nodeId else address
      ensures nodes == map[nodeId := NewNode(nodeId, role, address)]
      ensures links == map[] && distributedKeys == map[] && pathCache == map[]
      ensures Valid()
    {
      this.nodeId := nodeId;
      this.role := role;
      this.address := if address == "" then nodeId else address;
      nodes := map[nodeId := NewNode(nodeId, role, address)];
      links := map[];
      distributedKeys := map[];
      pathCache := map[];
    }

    /** `NetworkQKD.add_node`: a fresh node replaces any node of that id;
        the graph keeps its edges. */
    method AddNode(id: string, role: NodeRole, address: string)
      requires Valid()
      modifies this
      ensures nodes == old(nodes)[id := NewNode(id, role, address)]
      ensures links == old(links) && distributedKeys == old(distributedKeys) && pathCache == old(pathCache)
      ensures Valid()
    {
      nodes := nodes[id := NewNode(id, role, address)];
    }

    /** `NetworkQKD.add_link`: a ValueError unless both nodes are known;
        otherwise each becomes the other's neighbour with the same secret,
        which makes the link a valid path in both directions, and the edge
        gets the latency. */
    method AddLink(node1: string, node2: string, sharedSecret: Bytes, latency: real) returns (r: Result<()>)
      requires Valid()
      modifies this
      ensures r.Failure? <==> node1 !in old(nodes) || node2 !in old(nodes)
      ensures r.Failure? ==> r.error == ValueError && nodes == old(nodes) && links == old(links)
      ensures r.Success? ==>
        nodes == Joined(old(nodes), node1, node2, sharedSecret) &&
        links == old(links)[(node1, node2) := latency][(node2, node1) := latency]
      ensures r.Success? ==>
        ValidatePath(nodes, [node1, node2]) == Success(true) && ValidatePath(nodes, [node2, node1]) == Success(true)
      ensures distributedKeys == old(distributedKeys) && pathCache == old(pathCache)
      ensures Valid()
    {
      if node1 !in nodes || node2 !in nodes {
        return Failure(ValueError);
      }
      JoinedLinks(nodes, node1, node2, sharedSecret);
      nodes := nodes[node1 := Join(nodes[node1], node2, sharedSecret)];
      nodes := nodes[node2 := Join(nodes[node2], node1, sharedSecret)];
      links := links[(node1, node2) := latency][(node2, node1) := latency];
      r := Success(());
    }

    /** `NetworkQKD.find_paths`: [] for an unknown end; the cached list on a
        cache hit; otherwise the candidates scored one by one, sorted, and
        cached under (source, destination). */
    method FindPaths(sourceId: string, destinationId: string, candidates: seq<seq<string>>) returns (paths: seq<NetworkPath>)
      requires Valid()
      requires sourceId in nodes && destinationId in nodes && (sourceId, destinationId) !in pathCache ==>
        forall p :: p in candidates ==> Walk(nodes, links, p)
      modifies this
      ensures nodes == old(nodes) && links == old(links) && distributedKeys == old(distributedKeys)
      ensures sourceId !in nodes || destinationId !in nodes ==> paths == [] && pathCache == old(pathCache)
      ensures sourceId in nodes && destinationId in nodes && (sourceId, destinationId) in old(pathCache) ==>
        paths == old(pathCache)[(sourceId, destinationId)] && pathCache == old(pathCache)
      ensures sourceId in nodes && destinationId in nodes && (sourceId, destinationId) !in old(pathCache) ==>
        paths == Ranked(nodes, links, candidates) && pathCache == old(pathCache)[(sourceId, destinationId) := paths]
      ensures Valid()
    {
      if sourceId !in nodes || destinationId !in nodes {
        return [];
      }
      if (sourceId, destinationId) in pathCache {
        return pathCache[(sourceId, destinationId)];
      }
      var scored: seq<NetworkPath> := [];
      var i := 0;
      while i < |candidates|
        invariant 0 <= i <= |candidates|
        invariant scored == Scored(nodes, links, candidates[..i])
      {
        var path := candidates[i];
        assert path in candidates;
        var hops := |path| - 1;
        var latency := PathLatency(links, path);
        var trust := Score(nodes, links, path).trustLevel;
        scored := scored + [NetworkPath(path, hops, trust, latency)];
        i := i + 1;
      }
      assert candidates[..i] == candidates;
      paths := Sorting.Sort(scored, Better);
      pathCache := pathCache[(sourceId, destinationId) := paths];
    }

    /** `NetworkQKD._relay_key_along_path`: at each hop the current key is
        XORed with the hop key, the masked key is left at the node reached
        unless it is the destination, and the next node removes the mask.
        It always succeeds, and `recovered`, the key after the last hop, is
        the key sent. */
    method RelayKeyAlongPath(path: seq<string>, key: Bytes, sessionId: string, sha256: Sha256)
      returns (ok: bool, recovered: Bytes)
      requires Relayable(nodes, path)
      modifies this
      ensures ok && recovered == key
      ensures nodes == Relayed(old(nodes), path, key, sessionId, sha256)
      ensures links == old(links) && distributedKeys == old(distributedKeys) && pathCache == old(pathCache)
    {
      ghost var start := nodes;
      ghost var masks := Masks(start, path, key, sessionId, sha256);
      ghost var slot := EncryptedSlot(sessionId);
      var current := key;
      var i := 0;
      while i < |path| - 1
        invariant 0 <= i <= Hops(path)
        invariant current == key
        invariant nodes == Stored(start, path, slot, masks, i)
        invariant links == old(links) && distributedKeys == old(distributedKeys) && pathCache == old(pathCache)
      {
        StoredKeysOnly(start, path, slot, masks, i, path[i]);
        var hop := HopKey(nodes, path[i], path[i + 1], HopSession(sessionId, i), sha256);
        assert hop == HopKey(start, path[i], path[i + 1], HopSession(sessionId, i), sha256);
        XorRoundTrip(current, hop);
        var encrypted := XorEncrypt(current, hop).value;
        assert encrypted == masks[i];
        if i < |path| - 2 {
          var relay := nodes[path[i + 1]];
          nodes := nodes[path[i + 1] := relay.(keys := relay.keys[EncryptedSlot(sessionId) := encrypted])];
        }
        current := XorDecrypt(encrypted, hop).value;
        i := i + 1;
      }
      assert i == Hops(path);
      ok, recovered := true, current;
    }

    /** `NetworkQKD.get_key`: the key of a session that is present and not
        expired at time `now`. */
    function GetKey(sessionId: string, now: real): (r: Option<Bytes>)
      reads this
      ensures r.Some? <==> sessionId in distributedKeys && !IsExpired(distributedKeys[sessionId], now)
      ensures r.Some? ==> r.value == distributedKeys[sessionId].key
    {
      if sessionId in distributedKeys && !IsExpired(distributedKeys[sessionId], now) then
        Some(distributedKeys[sessionId].key)
      else None
    }

    /** `NetworkQKD.distribute_key`.  Unknown ends, no path, or a path that
        fails validation give (False, None, []) and store no key; a
        preferred path through an unknown node raises a KeyError.  On
        success the relay runs, the key is recorded under the session id
        (given, or drawn from `nowText`) with timestamp int(now), the
        destination stores it, and with a TTL of a second or more it can be
        fetched at once. */
    method DistributeKey(sourceId: string, destinationId: string, key: Bytes, sessionId: Option<string>,
                         preferredPath: seq<string>, ttl: int, now: real, nowText: string,
                         candidates: seq<seq<string>>, sha256: Sha256)
      returns (r: Result<(bool, Option<NetworkKey>, seq<string>)>)
      requires Valid()
      requires preferredPath == [] && sourceId in nodes && destinationId in nodes && (sourceId, destinationId) !in pathCache ==>
        forall p :: p in candidates ==> Walk(nodes, links, p)
      modifies this
      ensures links == old(links) && Valid()
      ensures sourceId !in old(nodes) || destinationId !in old(nodes) ==>
        r == Success((false, None, [])) && pathCache == old(pathCache)
      ensures !(r.Success? && r.value.0) ==> nodes == old(nodes) && distributedKeys == old(distributedKeys)
      ensures sourceId in old(nodes) && destinationId in old(nodes) && preferredPath == [] &&
              (sourceId, destinationId) !in old(pathCache) ==>
        pathCache == old(pathCache)[(sourceId, destinationId) := Ranked(old(nodes), old(links), candidates)]
      ensures !(sourceId in old(nodes) && destinationId in old(nodes) && preferredPath == [] &&
                (sourceId, destinationId) !in old(pathCache)) ==>
        pathCache == old(pathCache)
      ensures sourceId in old(nodes) && destinationId in old(nodes) ==>
        var path := ChosenPath(old(nodes), old(links), old(pathCache), sourceId, destinationId, preferredPath, candidates);
        var sid := if sessionId.Some? then sessionId.value else GeneratedSessionId(sourceId, destinationId, nowText, sha256);
        (r.Failure? <==> ValidatePath(old(nodes), path).Failure?) &&
        (r.Failure? ==> r.error == KeyError) &&
        (r == Success((false, None, [])) <==> ValidatePath(old(nodes), path) == Success(false)) &&
        (ValidatePath(old(nodes), path) == Success(true) ==>
          Linked(old(nodes), path) &&
          r == Success((true, Some(NetworkKey(key, sid, sourceId, destinationId, path, PyInt(now), ttl)), path)) &&
          distributedKeys == old(distributedKeys)[sid := NetworkKey(key, sid, sourceId, destinationId, path, PyInt(now), ttl)] &&
          nodes == Delivered(Relayed(old(nodes), path, key, sid, sha256), destinationId, sid, key) &&
          (ttl >= 1 ==> GetKey(sid, now) == Some(key)))
    {
      if sourceId !in nodes || destinationId !in nodes {
        return Success((false, None, []));
      }
      ghost var chosen := ChosenPath(nodes, links, pathCache, sourceId, destinationId, preferredPath, candidates);
      var sid := if sessionId.Some? then sessionId.value else GeneratedSessionId(sourceId, destinationId, nowText, sha256);
      var path := preferredPath;
      if preferredPath == [] {
        var paths := FindPaths(sourceId, destinationId, candidates);
        if paths == [] {
          return Success((false, None, []));
        }
        path := paths[0].path;
      }
      assert path == chosen;
      ValidatePathLinked(nodes, path);
      var valid := ValidatePath(nodes, path);
      if valid.Failure? {
        return Failure(valid.error);
      }
      if !valid.value {
        return Success((false, None, []));
      }
      var success, _ := RelayKeyAlongPath(path, key, sid, sha256);
      var networkKey := NetworkKey(key, sid, sourceId, destinationId, path, PyInt(now), ttl);
      distributedKeys := distributedKeys[sid := networkKey];
      var destination := nodes[destinationId];
      nodes := nodes[destinationId := destination.(keys := destination.keys[sid := key])];
      r := Success((true, Some(networkKey), path));
    }
  }
}
