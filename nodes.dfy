/** The simulator's node table (scripts/format_for_DTK.py, get_nodes): one
    record per district of the geography file, keyed by the district's short
    name, with a few hard-coded cities added on top. */
module Nodes {
  import opened Common
  import Text

  /** alt_names: spellings of the case tables for districts the geography
      file spells differently. */
  const AltNames: map<string, string> := map[
    "Kissidougou" := "Kisidougou",
    "Nzerekore" := "N'Zerekore",
    "Yamou" := "Yomou",
    "Gbapolu" := "Gbarpolu",
    "GrandBassa" := "Grand Bassa",
    "GrandGedeh" := "Grand Gedeh",
    "GrandKru" := "Grand Kru",
    "River Cess" := "Rivercess",
    "Western Urban" := "Western (urban)",
    "Western Rural" := "Western (rural)"]

  /** node_info: the attributes a node record keeps. */
  const NodeInfo: seq<string> := ["Latitude", "Longitude", "InitialPopulation"]

  /** The record of a hard-coded city. */
  function City(lat: real, lon: real, population: real): map<string, real>
  {
    map["Latitude" := lat, "Longitude" := lon, "InitialPopulation" := population]
  }

  /** additional_nodes: cities outside the geography file, in the order
      nodes.update visits them. */
  const AdditionalNodes: seq<(string, map<string, real>)> := [
    ("Lagos", City(6.583333, 3.75, 9019534.0)),
    ("Rivers", City(4.75, 6.833333, 5185400.0)),
    ("Dakar", City(14.692778, -17.446667, 2396800.0)),
    ("Kayes", City(14.45, -11.433333, 127368.0)),
    ("Bamako", City(12.65, -8.0, 1809106.0)),
    ("Dallas", City(32.775833, -96.796667, 6810913.0)),
    ("New York", City(40.7127, -74.0059, 8405837.0)),
    ("Madrid", City(40.5, -3.6666, 6489680.0)),
    ("Glasgow", City(55.858, -4.259, 1750000.0))]

  /** What __main__ later adds to a node: its 'data' series and its 'id'.
      The two keys are always set together and removed together. */
  datatype Channel = Channel(data: seq<real>, id: int)

  /** A node dict: its attributes, and the channel once it is annotated. */
  datatype Node = Node(attrs: map<string, real>, channel: Option<Channel>)

  /** A Python dict of nodes: its keys in iteration order, and its values. */
  datatype Dict = Dict(keys: seq<string>, vals: map<string, Node>)

  /** One object of the geography file: its Name, if any, and its numeric
      attributes. */
  datatype GeoEntry = GeoEntry(name: Option<string>, attrs: map<string, real>)

  predicate Distinct(s: seq<string>)
  {
    forall i, j :: 0 <= i < j < |s| ==> s[i] != s[j]
  }

  /** A dict's keys are listed once each, and exactly its keys are listed. */
  ghost predicate WellFormed(d: Dict)
  {
    Distinct(d.keys) && forall k :: k in d.vals <==> k in d.keys
  }

  /** d[k] = v: a new key goes to the end of the order, an existing key keeps
      its place. */
  function Put(d: Dict, k: string, v: Node): Dict
  {
    if k in d.vals then Dict(d.keys, d.vals[k := v]) else Dict(d.keys + [k], d.vals[k := v])
  }

  /** Storing a value keeps a dict well formed, leaves every other key's
      value and the order of the old keys as they were. */
  lemma {:induction false} PutMeaning(d: Dict, k: string, v: Node)
    requires WellFormed(d)
    ensures WellFormed(Put(d, k, v))
    ensures Put(d, k, v).vals == d.vals[k := v]
    ensures Put(d, k, v).keys[..|d.keys|] == d.keys
  {
    var r := Put(d, k, v);
    if k !in d.vals {
      assert k !in d.keys;
      assert r.keys[..|d.keys|] == d.keys;
    } else {
      assert r.keys[..|d.keys|] == d.keys;
    }
  }

  /** The dict updated in place by get_nodes and __main__. */
  class NodeTable {
    var keys: seq<string>
    var nodes: map<string, Node>

    function Contents(): Dict
      reads this
    {
      Dict(keys, nodes)
    }

    ghost predicate Valid()
      reads this
    {
      WellFormed(Contents())
    }

    /** nodes = {} */
    constructor ()
      ensures Valid() && Contents() == Dict([], map[])
    {
      keys := [];
      nodes := map[];
    }

    /** nodes[k] = v */
    method Set(k: string, v: Node)
      requires Valid()
      modifies this
      ensures Valid() && Contents() == Put(old(Contents()), k, v)
    {
      PutMeaning(Contents(), k, v);
      if k !in nodes {
        keys := keys + [k];
      }
      nodes := nodes[k := v];
    }
  }

  /** The table key of a geography name: its last ':'-segment, replaced by
      its entry in the alias table alt when there is one. */
  function NodeKey(alt: map<string, string>, name: string): string
  {
    var district := Text.LastSegment(name, ':');
    if district in alt then alt[district] else district
  }

  /** The key of a name "country:district" is the key of its district,
      which is the district itself unless alt gives it another spelling. */
  lemma {:induction false} NodeKeyOfName(alt: map<string, string>, prefix: string, district: string)
    requires ':' !in district
    ensures NodeKey(alt, district) == if district in alt then alt[district] else district
    ensures NodeKey(alt, prefix + [':'] + district) == NodeKey(alt, district)
  {
    Text.LastSegmentAfter(prefix, district, ':');
  }

  /** The key function get_nodes uses: NodeKey with the alt_names table.
      The loop below takes the key function as a parameter. */
  const Key: string -> string := name => NodeKey(AltNames, name)

  /** The entry has a Name and every attribute of node_info. */
  predicate EntryOk(e: GeoEntry)
  {
    e.name.Some? && HasNodeInfo(e.attrs)
  }

  /** Every attribute of node_info is present. */
  predicate HasNodeInfo(attrs: map<string, real>)
  {
    "Latitude" in attrs && "Longitude" in attrs && "InitialPopulation" in attrs
  }

  /** {k: n[k] for k in node_info} */
  function Select(attrs: map<string, real>): map<string, real>
    requires HasNodeInfo(attrs)
  {
    map["Latitude" := attrs["Latitude"], "Longitude" := attrs["Longitude"],
        "InitialPopulation" := attrs["InitialPopulation"]]
  }

  /** The record holds exactly the node_info attributes, copied. */
  lemma {:induction false} SelectMeaning(attrs: map<string, real>)
    requires HasNodeInfo(attrs)
    ensures forall k :: k in Select(attrs) <==> k in NodeInfo
    ensures forall k :: k in Select(attrs) ==> Select(attrs)[k] == attrs[k]
  {
    assert NodeInfo[0] == "Latitude" && NodeInfo[1] == "Longitude" && NodeInfo[2] == "InitialPopulation";
  }

  /** The key and record get_nodes makes of one entry; a missing Name or
      attribute is a KeyError. */
  function EntryRecord(key: string -> string, e: GeoEntry): (r: Result<(string, map<string, real>)>)
    ensures r.Ok? <==> EntryOk(e)
    ensures r.Err? ==> r.error == KeyError
  {
    if e.name.None? then Err(KeyError)
    else if !HasNodeInfo(e.attrs) then Err(KeyError)
    else Ok((key(e.name.value), Select(e.attrs)))
  }

  /** The loop over the geography entries: each record stored under its key,
      stopping at the first failing entry. */
  function GeographyNodes(key: string -> string, es: seq<GeoEntry>): Result<Dict>
    decreases |es|
  {
    if es == [] then Ok(Dict([], map[]))
    else
      match GeographyNodes(key, es[..|es| - 1])
      case Err(e) => Err(e)
      case Ok(d) =>
        match EntryRecord(key, es[|es| - 1])
        case Err(e) => Err(e)
        case Ok(kr) => Ok(Put(d, kr.0, Node(kr.1, None)))
  }

  /** nodes.update(extra), extra listed in iteration order. */
  function PutAll(d: Dict, extra: seq<(string, map<string, real>)>): Dict
    decreases |extra|
  {
    if extra == [] then d
    else
      var city := extra[|extra| - 1];
      Put(PutAll(d, extra[..|extra| - 1]), city.0, Node(city.1, None))
  }

  /** get_nodes, with the alias table and the added cities as parameters. */
  function NodesOf(key: string -> string, extra: seq<(string, map<string, real>)>,
                   es: seq<GeoEntry>): Result<Dict>
  {
    match GeographyNodes(key, es)
    case Err(e) => Err(e)
    case Ok(d) => Ok(PutAll(d, extra))
  }

  lemma {:induction false} GeographyErrorPersists(key: string -> string, es: seq<GeoEntry>, i: int)
    requires 0 < i <= |es|
    requires GeographyNodes(key, es[..i]).Err?
    ensures GeographyNodes(key, es) == GeographyNodes(key, es[..i])
    decreases |es| - i
  {
    if i < |es| {
      var es' := es[..i + 1];
      assert es'[..i] == es[..i];
      assert GeographyNodes(key, es') == GeographyNodes(key, es[..i]);
      GeographyErrorPersists(key, es, i + 1);
    } else {
      assert es[..i] == es;
    }
  }

  /** One more entry of the loop: its record is stored, or its error ends the loop. */
  lemma {:induction false} GeographyAppend(key: string -> string, es: seq<GeoEntry>, i: int)
    requires 0 <= i < |es|
    ensures GeographyNodes(key, es[..i]).Ok? ==>
      GeographyNodes(key, es[..i + 1]) ==
        match EntryRecord(key, es[i])
        case Err(e) => Err(e)
        case Ok(kr) => Ok(Put(GeographyNodes(key, es[..i]).value, kr.0, Node(kr.1, None)))
  {
    var p := es[..i + 1];
    assert p[..i] == es[..i] && p[i] == es[i];
  }

  /** The loop of get_nodes over the geography entries. */
  method AddGeography(table: NodeTable, key: string -> string, es: seq<GeoEntry>) returns (r: Result<()>)
    requires table.Valid() && table.Contents() == Dict([], map[])
    modifies table
    ensures table.Valid()
    ensures r.Err? <==> GeographyNodes(key, es).Err?
    ensures r.Err? ==> r.error == GeographyNodes(key, es).error
    ensures r.Ok? ==> table.Contents() == GeographyNodes(key, es).value
  {
    var i := 0;
    while i < |es|
      invariant 0 <= i <= |es|
      invariant table.Valid()
      invariant GeographyNodes(key, es[..i]) == Ok(table.Contents())
    {
      GeographyAppend(key, es, i);
      match EntryRecord(key, es[i]) {
        case Err(e) =>
          GeographyErrorPersists(key, es, i + 1);
          return Err(e);
        case Ok(kr) =>
          table.Set(kr.0, Node(kr.1, None));
      }
      i := i + 1;
    }
    assert es[..i] == es;
    r := Ok(());
  }

  /** nodes.update(extra) */
  method AddAll(table: NodeTable, extra: seq<(string, map<string, real>)>)
    requires table.Valid()
    modifies table
    ensures table.Valid() && table.Contents() == PutAll(old(table.Contents()), extra)
  {
    var n := 0;
    while n < |extra|
      invariant 0 <= n <= |extra|
      invariant table.Valid()
      invariant table.Contents() == PutAll(old(table.Contents()), extra[..n])
    {
      assert extra[..n + 1][..n] == extra[..n];
      table.Set(extra[n].0, Node(extra[n].1, None));
      n := n + 1;
    }
    assert extra[..n] == extra;
  }

  /** get_nodes: the entries in file order, then the hard-coded cities. */
  method GetNodes(es: seq<GeoEntry>) returns (r: Result<NodeTable>)
    ensures r.Err? <==> NodesOf(Key, AdditionalNodes, es).Err?
    ensures r.Err? ==> r.error == NodesOf(Key, AdditionalNodes, es).error
    ensures r.Ok? ==> fresh(r.value) && r.value.Valid() &&
                      r.value.Contents() == NodesOf(Key, AdditionalNodes, es).value
  {
    var table := new NodeTable();
    var geography := AddGeography(table, Key, es);
    if geography.Err? {
      return Err(geography.error);
    }
    AddAll(table, AdditionalNodes);
    r := Ok(table);
  }

  // ---------------------------------------------------------------- properties

  lemma {:induction false} GeographyStep(key: string -> string, es: seq<GeoEntry>)
    requires es != []
    ensures GeographyNodes(key, es[..|es| - 1]).Err? ==>
      GeographyNodes(key, es) == GeographyNodes(key, es[..|es| - 1])
    ensures GeographyNodes(key, es[..|es| - 1]).Ok? && !EntryOk(es[|es| - 1]) ==>
      GeographyNodes(key, es) == Err(KeyError)
    ensures GeographyNodes(key, es[..|es| - 1]).Ok? && EntryOk(es[|es| - 1]) ==>
      var last := es[|es| - 1];
      GeographyNodes(key, es) ==
        Ok(Put(GeographyNodes(key, es[..|es| - 1]).value, key(last.name.value), Node(Select(last.attrs), None)))
  {
  }

  lemma {:induction false} GeographyFailure(key: string -> string, es: seq<GeoEntry>)
    ensures GeographyNodes(key, es).Ok? <==> forall j :: 0 <= j < |es| ==> EntryOk(es[j])
    ensures GeographyNodes(key, es).Err? ==> GeographyNodes(key, es).error == KeyError
    decreases |es|
  {
    if es != [] {
      var p := es[..|es| - 1];
      var last := es[|es| - 1];
      GeographyFailure(key, p);
      GeographyStep(key, es);
      assert (forall j :: 0 <= j < |es| ==> EntryOk(es[j])) <==>
             (forall j :: 0 <= j < |p| ==> EntryOk(p[j])) && EntryOk(last) by {
        assert forall j :: 0 <= j < |p| ==> p[j] == es[j];
      }
    }
  }

  /** get_nodes fails, with a KeyError, exactly when some entry of the
      geography file lacks its Name or one of the node_info attributes. */
  lemma {:induction false} NodesFailure(key: string -> string, extra: seq<(string, map<string, real>)>, es: seq<GeoEntry>)
    ensures NodesOf(key, extra, es).Err? <==> exists j :: 0 <= j < |es| && !EntryOk(es[j])
    ensures NodesOf(key, extra, es).Err? ==> NodesOf(key, extra, es).error == KeyError
  {
    GeographyFailure(key, es);
  }

  lemma {:induction false} GeographyWellFormed(key: string -> string, es: seq<GeoEntry>)
    requires GeographyNodes(key, es).Ok?
    ensures WellFormed(GeographyNodes(key, es).value)
    decreases |es|
  {
    if es != [] {
      var p := es[..|es| - 1];
      var last := es[|es| - 1];
      GeographyStep(key, es);
      assert EntryOk(last);
      GeographyWellFormed(key, p);
      PutMeaning(GeographyNodes(key, p).value, key(last.name.value), Node(Select(last.attrs), None));
    }
  }

  lemma {:induction false} PutVals(d: Dict, k: string, v: Node)
    ensures Put(d, k, v).vals == d.vals[k := v]
  {
  }

  /** The geography loop stores a key k exactly when some entry has key k;
      the node under it is not yet annotated and holds exactly the
      node_info attributes. */
  lemma {:induction false} GeographyKeys(key: string -> string, es: seq<GeoEntry>, k: string)
    requires GeographyNodes(key, es).Ok?
    ensures k in GeographyNodes(key, es).value.vals <==>
      exists j :: 0 <= j < |es| && es[j].name.Some? && key(es[j].name.value) == k
    ensures k in GeographyNodes(key, es).value.vals ==>
      GeographyNodes(key, es).value.vals[k].channel == None &&
      forall a :: a in GeographyNodes(key, es).value.vals[k].attrs <==> a in NodeInfo
    decreases |es|
  {
    if es != [] {
      var p := es[..|es| - 1];
      var last := es[|es| - 1];
      GeographyStep(key, es);
      assert EntryOk(last);
      GeographyKeys(key, p, k);
      assert forall j :: 0 <= j < |p| ==> p[j] == es[j];
      SelectMeaning(last.attrs);
      PutVals(GeographyNodes(key, p).value, key(last.name.value), Node(Select(last.attrs), None));
    }
  }

  lemma {:induction false} PutHit(d: Dict, k: string, v: Node)
    ensures k in Put(d, k, v).vals && Put(d, k, v).vals[k] == v
  {
  }

  lemma {:induction false} PutKeep(d: Dict, k: string, k': string, v: Node)
    requires k != k' && k in d.vals
    ensures k in Put(d, k', v).vals && Put(d, k', v).vals[k] == d.vals[k]
  {
  }

  /** A key k holds the record of the LAST geography entry with key k. */
  lemma {:induction false} GeographyLastWins(key: string -> string, es: seq<GeoEntry>, k: string, j: int)
    requires GeographyNodes(key, es).Ok?
    requires 0 <= j < |es| && es[j].name.Some? && key(es[j].name.value) == k
    requires forall j' :: j < j' < |es| && es[j'].name.Some? ==> key(es[j'].name.value) != k
    ensures HasNodeInfo(es[j].attrs)
    ensures k in GeographyNodes(key, es).value.vals
    ensures GeographyNodes(key, es).value.vals[k] == Node(Select(es[j].attrs), None)
    decreases |es|
  {
    var p := es[..|es| - 1];
    var last := es[|es| - 1];
    GeographyStep(key, es);
    assert EntryOk(last);
    var d := GeographyNodes(key, p).value;
    var kl := key(last.name.value);
    var v := Node(Select(last.attrs), None);
    if j < |es| - 1 {
      assert p[j] == es[j];
      assert kl != k;
      forall j' | j < j' < |p| && p[j'].name.Some?
        ensures key(p[j'].name.value) != k
      {
        assert p[j'] == es[j'];
      }
      GeographyLastWins(key, p, k, j);
      PutKeep(d, k, kl, v);
    } else {
      PutHit(d, kl, v);
    }
  }

  lemma {:induction false} PutAllWellFormed(d: Dict, extra: seq<(string, map<string, real>)>)
    requires WellFormed(d)
    ensures WellFormed(PutAll(d, extra))
    ensures |d.keys| <= |PutAll(d, extra).keys| && PutAll(d, extra).keys[..|d.keys|] == d.keys
    decreases |extra|
  {
    if extra != [] {
      var p := extra[..|extra| - 1];
      var city := extra[|extra| - 1];
      PutAllWellFormed(d, p);
      var before := PutAll(d, p);
      PutMeaning(before, city.0, Node(city.1, None));
      assert before.keys[..|d.keys|] == d.keys;
      assert PutAll(d, extra).keys[..|before.keys|] == before.keys;
    } else {
      assert d.keys[..|d.keys|] == d.keys;
    }
  }

  /** What nodes.update(extra) stores under a key k: k is present when it
      was or when extra names it, and a key extra does not name keeps its
      value. */
  lemma {:induction false} PutAllKeys(d: Dict, extra: seq<(string, map<string, real>)>, k: string)
    ensures k in PutAll(d, extra).vals <==> k in d.vals || exists i :: 0 <= i < |extra| && extra[i].0 == k
    ensures (forall i :: 0 <= i < |extra| ==> extra[i].0 != k) && k in d.vals ==>
              PutAll(d, extra).vals[k] == d.vals[k]
    ensures (k in d.vals ==> d.vals[k].channel == None) && k in PutAll(d, extra).vals ==>
              PutAll(d, extra).vals[k].channel == None
    decreases |extra|
  {
    if extra != [] {
      var p := extra[..|extra| - 1];
      var city := extra[|extra| - 1];
      PutAllKeys(d, p, k);
      assert forall i :: 0 <= i < |p| ==> p[i] == extra[i];
      PutVals(PutAll(d, p), city.0, Node(city.1, None));
    }
  }

  /** A key extra names holds the record of extra's LAST entry for it. */
  lemma {:induction false} PutAllLastWins(d: Dict, extra: seq<(string, map<string, real>)>, k: string, i: int)
    requires 0 <= i < |extra| && extra[i].0 == k
    requires forall i' :: i < i' < |extra| ==> extra[i'].0 != k
    ensures k in PutAll(d, extra).vals && PutAll(d, extra).vals[k] == Node(extra[i].1, None)
    decreases |extra|
  {
    var p := extra[..|extra| - 1];
    var city := extra[|extra| - 1];
    PutVals(PutAll(d, p), city.0, Node(city.1, None));
    if i < |extra| - 1 {
      assert p[i] == extra[i];
      assert forall i' :: i < i' < |p| ==> p[i'] == extra[i'];
      PutAllLastWins(d, p, k, i);
    }
  }

  /** The table get_nodes returns is a well-formed dict whose keys are the
      keys of the geography entries and the names of the added cities, with
      the geography keys in front in their own order, and no node of it is
      annotated yet. */
  lemma {:induction false} NodesKeys(key: string -> string, extra: seq<(string, map<string, real>)>, es: seq<GeoEntry>, k: string)
    requires NodesOf(key, extra, es).Ok?
    ensures WellFormed(NodesOf(key, extra, es).value)
    ensures k in NodesOf(key, extra, es).value.vals <==>
      (exists i :: 0 <= i < |extra| && extra[i].0 == k) ||
      (exists j :: 0 <= j < |es| && es[j].name.Some? && key(es[j].name.value) == k)
    ensures k in NodesOf(key, extra, es).value.vals ==> NodesOf(key, extra, es).value.vals[k].channel == None
    ensures GeographyNodes(key, es).value.keys <= NodesOf(key, extra, es).value.keys
  {
    var d := GeographyNodes(key, es).value;
    GeographyWellFormed(key, es);
    GeographyKeys(key, es, k);
    PutAllWellFormed(d, extra);
    PutAllKeys(d, extra, k);
  }

  /** A name the added cities list maps to the record of the LAST city of
      that name, whatever the geography file holds. */
  lemma {:induction false} NodesCityWins(key: string -> string, extra: seq<(string, map<string, real>)>,
                                         es: seq<GeoEntry>, k: string, i: int)
    requires NodesOf(key, extra, es).Ok?
    requires 0 <= i < |extra| && extra[i].0 == k
    requires forall i' :: i < i' < |extra| ==> extra[i'].0 != k
    ensures k in NodesOf(key, extra, es).value.vals
    ensures NodesOf(key, extra, es).value.vals[k] == Node(extra[i].1, None)
  {
    PutAllLastWins(GeographyNodes(key, es).value, extra, k, i);
  }

  /** A key no added city names maps to the node_info record of the LAST
      geography entry with that key. */
  lemma {:induction false} NodesGeographyWins(key: string -> string, extra: seq<(string, map<string, real>)>,
                                              es: seq<GeoEntry>, k: string, j: int)
    requires NodesOf(key, extra, es).Ok?
    requires 0 <= j < |es| && es[j].name.Some? && key(es[j].name.value) == k
    requires forall i :: 0 <= i < |extra| ==> extra[i].0 != k
    requires forall j' :: j < j' < |es| && es[j'].name.Some? ==> key(es[j'].name.value) != k
    ensures HasNodeInfo(es[j].attrs) && k in NodesOf(key, extra, es).value.vals
    ensures NodesOf(key, extra, es).value.vals[k] == Node(Select(es[j].attrs), None)
  {
    GeographyLastWins(key, es, k, j);
    PutAllKeys(GeographyNodes(key, es).value, extra, k);
  }

  /** The hard-coded cities have distinct names, and each record holds
      exactly the node_info attributes. */
  lemma {:induction false} AdditionalNodesMeaning()
    ensures forall i, j :: 0 <= i < j < |AdditionalNodes| ==> AdditionalNodes[i].0 != AdditionalNodes[j].0
    ensures forall i :: 0 <= i < |AdditionalNodes| ==> AdditionalNodes[i].1.Keys == {"Latitude", "Longitude", "InitialPopulation"}
  {
  }

  /** In the table get_nodes returns, every hard-coded city maps to its own
      record, which overrides any geography entry of the same name, and
      every node holds exactly Latitude, Longitude and InitialPopulation. */
  lemma {:induction false} GetNodesOverrides(es: seq<GeoEntry>, k: string)
    requires NodesOf(Key, AdditionalNodes, es).Ok?
    ensures forall i :: 0 <= i < |AdditionalNodes| && AdditionalNodes[i].0 == k ==>
      k in NodesOf(Key, AdditionalNodes, es).value.vals &&
      NodesOf(Key, AdditionalNodes, es).value.vals[k] == Node(AdditionalNodes[i].1, None)
    ensures k in NodesOf(Key, AdditionalNodes, es).value.vals ==>
      forall a :: a in NodesOf(Key, AdditionalNodes, es).value.vals[k].attrs <==> a in NodeInfo
  {
    var d := GeographyNodes(Key, es).value;
    GeographyKeys(Key, es, k);
    PutAllKeys(d, AdditionalNodes, k);
    AdditionalNodesMeaning();
    assert NodeInfo[0] == "Latitude" && NodeInfo[1] == "Longitude" && NodeInfo[2] == "InitialPopulation";
    forall i | 0 <= i < |AdditionalNodes| && AdditionalNodes[i].0 == k
      ensures k in NodesOf(Key, AdditionalNodes, es).value.vals
      ensures NodesOf(Key, AdditionalNodes, es).value.vals[k] == Node(AdditionalNodes[i].1, None)
    {
      NodesCityWins(Key, AdditionalNodes, es, k, i);
    }
  }
}
