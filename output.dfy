/** The end of scripts/format_for_DTK.py: each district column of the
    transformed table is attached to its node, then the binary spatial
    report and the demographics document are written from the node table. */
module Output {
  import opened Common
  import opened Nodes
  import Grid

  /** The transformed table: its column names (node_names) in order, each
      column's daily values, and the number of days (n_tstep). */
  datatype Frame = Frame(columns: seq<string>, data: seq<seq<real>>, steps: nat)

  /** A DataFrame: one series per column, each as long as the index. */
  predicate Rectangular(f: Frame)
  {
    |f.columns| == |f.data| && forall c :: 0 <= c < |f.data| ==> |f.data[c]| == f.steps
  }

  // ---------------------------------------------------------------- annotation

  /** The error the annotation of column c raises, judged on the table
      before the annotation: no node of that name (None.update), a name
      that heads several columns (a DataFrame has no tolist), a node without
      coordinates (node['Latitude']). */
  function ColumnError(d: Dict, f: Frame, c: int): Option<PyError>
    requires 0 <= c < |f.columns|
  {
    var name := f.columns[c];
    if name !in d.vals then Some(AttributeError)
    else if multiset(f.columns)[name] > 1 then Some(AttributeError)
    else if "Latitude" !in d.vals[name].attrs || "Longitude" !in d.vals[name].attrs then Some(KeyError)
    else None
  }

  /** The channel column c gives its node. */
  function ChannelOf(attrs: map<string, real>, f: Frame, c: int): Channel
    requires 0 <= c < |f.data|
    requires "Latitude" in attrs && "Longitude" in attrs
  {
    Channel(f.data[c], Grid.NodeId(attrs["Latitude"], attrs["Longitude"]))
  }

  /** One pass of the loop at lines 148-152. */
  function AnnotateColumn(d: Dict, f: Frame, c: int): Result<Dict>
    requires 0 <= c < |f.columns| == |f.data|
  {
    match ColumnError(d, f, c)
    case Some(e) => Err(e)
    case None =>
      var node := d.vals[f.columns[c]];
      Ok(Put(d, f.columns[c], Node(node.attrs, Some(ChannelOf(node.attrs, f, c)))))
  }

  /** The loop over the first n columns, stopping at the first error. */
  function AnnotateUpTo(d: Dict, f: Frame, n: nat): Result<Dict>
    requires n <= |f.columns| == |f.data|
  {
    if n == 0 then Ok(d)
    else
      match AnnotateUpTo(d, f, n - 1)
      case Err(e) => Err(e)
      case Ok(d') => AnnotateColumn(d', f, n - 1)
  }

  function AnnotateOf(d: Dict, f: Frame): Result<Dict>
    requires |f.columns| == |f.data|
  {
    AnnotateUpTo(d, f, |f.columns|)
  }

  lemma {:induction false} AnnotateErrorPersists(d: Dict, f: Frame, n: nat)
    requires n <= |f.columns| == |f.data|
    requires AnnotateUpTo(d, f, n).Err?
    ensures AnnotateOf(d, f) == AnnotateUpTo(d, f, n)
    decreases |f.columns| - n
  {
    if n < |f.columns| {
      AnnotateErrorPersists(d, f, n + 1);
    }
  }

  /** The loop at lines 148-152 on the node table. */
  method Annotate(table: NodeTable, f: Frame) returns (r: Result<()>)
    requires table.Valid() && |f.columns| == |f.data|
    modifies table
    ensures table.Valid()
    ensures r.Err? <==> AnnotateOf(old(table.Contents()), f).Err?
    ensures r.Err? ==> r.error == AnnotateOf(old(table.Contents()), f).error
    ensures r.Ok? ==> table.Contents() == AnnotateOf(old(table.Contents()), f).value
  {
    ghost var d := table.Contents();
    var c := 0;
    while c < |f.columns|
      invariant 0 <= c <= |f.columns|
      invariant table.Valid()
      invariant AnnotateUpTo(d, f, c) == Ok(table.Contents())
    {
      var name := f.columns[c];
      match ColumnError(table.Contents(), f, c) {
        case Some(e) =>
          assert AnnotateUpTo(d, f, c + 1) == Err(e);
          AnnotateErrorPersists(d, f, c + 1);
          return Err(e);
        case None =>
          var attrs := table.nodes[name].attrs;
          table.Set(name, Node(attrs, Some(ChannelOf(attrs, f, c))));
      }
      c := c + 1;
    }
    r := Ok(());
  }

  /** No node carries a 'data' series or an 'id' yet. */
  ghost predicate NoIds(d: Dict)
  {
    forall k :: k in d.vals ==> d.vals[k].channel.None?
  }

  /** A column error depends only on the table's keys and attributes. */
  lemma {:induction false} ColumnErrorSame(d: Dict, d': Dict, f: Frame, c: int)
    requires 0 <= c < |f.columns|
    requires forall k :: k in d'.vals <==> k in d.vals
    requires forall k :: k in d.vals ==> d'.vals[k].attrs == d.vals[k].attrs
    ensures ColumnError(d', f, c) == ColumnError(d, f, c)
  {
  }

  /** Annotation keeps the keys, their order and every node's attributes. */
  lemma {:induction false} AnnotateKeeps(d: Dict, f: Frame, n: nat)
    requires n <= |f.columns| == |f.data|
    requires AnnotateUpTo(d, f, n).Ok?
    ensures AnnotateUpTo(d, f, n).value.keys == d.keys
    ensures forall k :: k in AnnotateUpTo(d, f, n).value.vals <==> k in d.vals
    ensures forall k :: k in d.vals ==> AnnotateUpTo(d, f, n).value.vals[k].attrs == d.vals[k].attrs
    decreases n
  {
    if n > 0 {
      AnnotateKeeps(d, f, n - 1);
    }
  }

  /** The annotation fails exactly when some column fails, judged on the
      table before the annotation, and it fails with the error of the first
      such column. */
  lemma {:induction false} AnnotateFailure(d: Dict, f: Frame, n: nat)
    requires n <= |f.columns| == |f.data|
    ensures AnnotateUpTo(d, f, n).Ok? <==> forall c :: 0 <= c < n ==> ColumnError(d, f, c).None?
    ensures AnnotateUpTo(d, f, n).Err? ==>
      exists c :: 0 <= c < n && ColumnError(d, f, c) == Some(AnnotateUpTo(d, f, n).error) &&
                  forall c' :: 0 <= c' < c ==> ColumnError(d, f, c').None?
    decreases n
  {
    if n > 0 {
      AnnotateFailure(d, f, n - 1);
      if AnnotateUpTo(d, f, n - 1).Ok? {
        var d' := AnnotateUpTo(d, f, n - 1).value;
        AnnotateKeeps(d, f, n - 1);
        ColumnErrorSame(d, d', f, n - 1);
      }
    }
  }

  lemma {:induction false} TwiceCounted(s: seq<string>, i: int, j: int)
    requires 0 <= i < j < |s|
    ensures s[i] == s[j] ==> multiset(s)[s[i]] > 1
  {
    if s[i] == s[j] {
      assert s == s[..i] + [s[i]] + s[i + 1..j] + [s[j]] + s[j + 1..];
      assert multiset(s) == multiset(s[..i]) + multiset{s[i]} + multiset(s[i + 1..j]) + multiset{s[j]} + multiset(s[j + 1..]);
    }
  }

  /** One successful step of the annotation, stated on the table before
      the annotation. */
  lemma {:induction false} AnnotateStep(d: Dict, f: Frame, n: nat)
    requires 0 < n <= |f.columns| == |f.data|
    requires AnnotateUpTo(d, f, n).Ok?
    ensures AnnotateUpTo(d, f, n - 1).Ok?
    ensures f.columns[n - 1] in d.vals
    ensures "Latitude" in d.vals[f.columns[n - 1]].attrs && "Longitude" in d.vals[f.columns[n - 1]].attrs
    ensures var attrs := d.vals[f.columns[n - 1]].attrs;
      AnnotateUpTo(d, f, n).value.vals ==
        AnnotateUpTo(d, f, n - 1).value.vals[f.columns[n - 1] := Node(attrs, Some(ChannelOf(attrs, f, n - 1)))]
    ensures forall c :: 0 <= c < n - 1 ==> f.columns[c] != f.columns[n - 1]
  {
    AnnotateKeeps(d, f, n - 1);
    var d' := AnnotateUpTo(d, f, n - 1).value;
    ColumnErrorSame(d, d', f, n - 1);
    forall c | 0 <= c < n - 1
      ensures f.columns[c] != f.columns[n - 1]
    {
      TwiceCounted(f.columns, c, n - 1);
    }
  }

  /** After a successful annotation, the node of column c carries column
      c's series and the id of its coordinates' grid cell, its attributes
      untouched. */
  lemma {:induction false} AnnotateChannels(d: Dict, f: Frame, n: nat)
    requires n <= |f.columns| == |f.data|
    requires AnnotateUpTo(d, f, n).Ok?
    ensures forall c :: 0 <= c < n ==>
      f.columns[c] in d.vals && f.columns[c] in AnnotateUpTo(d, f, n).value.vals &&
      var attrs := d.vals[f.columns[c]].attrs;
      "Latitude" in attrs && "Longitude" in attrs &&
      AnnotateUpTo(d, f, n).value.vals[f.columns[c]] == Node(attrs, Some(ChannelOf(attrs, f, c)))
    decreases n
  {
    if n > 0 {
      AnnotateStep(d, f, n);
      AnnotateChannels(d, f, n - 1);
    }
  }

  /** A node no column names comes out of the annotation unchanged. */
  lemma {:induction false} AnnotateUntouched(d: Dict, f: Frame, n: nat, k: string)
    requires n <= |f.columns| == |f.data|
    requires AnnotateUpTo(d, f, n).Ok?
    requires k in d.vals && forall c :: 0 <= c < n ==> f.columns[c] != k
    ensures k in AnnotateUpTo(d, f, n).value.vals && AnnotateUpTo(d, f, n).value.vals[k] == d.vals[k]
    decreases n
  {
    if n > 0 {
      AnnotateStep(d, f, n);
      AnnotateUntouched(d, f, n - 1, k);
    }
  }

  /** A successful annotation means the column names are distinct. */
  lemma {:induction false} ColumnsDistinct(d: Dict, f: Frame)
    requires |f.columns| == |f.data|
    requires AnnotateOf(d, f).Ok?
    ensures Distinct(f.columns)
  {
    AnnotateFailure(d, f, |f.columns|);
    forall i, j | 0 <= i < j < |f.columns|
      ensures f.columns[i] != f.columns[j]
    {
      TwiceCounted(f.columns, i, j);
      assert ColumnError(d, f, i).None?;
    }
  }

  lemma {:induction false} IdKeysCount(keys: seq<string>, vals: map<string, Node>, ids: set<string>)
    requires Distinct(keys)
    requires forall k :: k in ids <==> k in keys && k in vals && vals[k].channel.Some?
    ensures |IdKeys(keys, vals)| == |ids|
    decreases |keys|
  {
    if keys != [] {
      var p := keys[..|keys| - 1];
      var x := keys[|keys| - 1];
      assert forall k :: k in keys <==> k in p || k == x;
      assert x !in p;
      if x in vals && vals[x].channel.Some? {
        IdKeysCount(p, vals, ids - {x});
      } else {
        IdKeysCount(p, vals, ids);
      }
    }
  }

  lemma {:induction false} DistinctCount(s: seq<string>)
    requires Distinct(s)
    ensures |set x | x in s| == |s|
    decreases |s|
  {
    if s != [] {
      var p := s[..|s| - 1];
      var x := s[|s| - 1];
      DistinctCount(p);
      assert (set y | y in s) == (set y | y in p) + {x};
      assert x !in p;
    }
  }

  /** On a table none of whose nodes carries an id yet (as get_nodes
      returns it), a successful annotation leaves exactly one id-bearing
      node per column: nodeids has n_nodes entries, so packing the ids
      cannot fail, and every series is n_tstep long. */
  lemma {:induction false} AnnotatedIds(d: Dict, f: Frame)
    requires WellFormed(d) && NoIds(d) && |f.columns| == |f.data|
    requires AnnotateOf(d, f).Ok?
    ensures WellFormed(AnnotateOf(d, f).value)
    ensures |NodeIds(AnnotateOf(d, f).value)| == |f.columns|
    ensures Rectangular(f) ==> Shaped(AnnotateOf(d, f).value, f.steps)
  {
    var n := |f.columns|;
    var r := AnnotateOf(d, f).value;
    AnnotateKeeps(d, f, n);
    AnnotateChannels(d, f, n);
    ColumnsDistinct(d, f);
    var names := set x | x in f.columns;
    forall k
      ensures k in names <==> k in r.keys && k in r.vals && r.vals[k].channel.Some?
    {
      if k in d.vals && k !in names {
        AnnotateUntouched(d, f, n, k);
      }
    }
    IdKeysCount(r.keys, r.vals, names);
    DistinctCount(f.columns);
  }

  // ---------------------------------------------------------------- report

  /** A field of the binary report: a native long or a 4-byte float. */
  datatype Field = Long(n: int) | Float(x: real)

  /** What the report file holds, and the error that ended the writing. */
  datatype Written = Written(fields: seq<Field>, error: Option<PyError>)

  /** The keys, in dict order, of the nodes that carry an id. */
  function IdKeys(keys: seq<string>, vals: map<string, Node>): (r: seq<string>)
    ensures |r| <= |keys|
    ensures forall i :: 0 <= i < |r| ==> r[i] in vals && vals[r[i]].channel.Some?
    ensures forall i :: 0 <= i < |r| ==> r[i] in keys
    decreases |keys|
  {
    if keys == [] then []
    else
      var k := keys[|keys| - 1];
      IdKeys(keys[..|keys| - 1], vals) + (if k in vals && vals[k].channel.Some? then [k] else [])
  }

  /** nodeids (line 154): the ids of the nodes that carry one, in dict
      order. */
  function NodeIds(d: Dict): (r: seq<int>)
    ensures |r| == |IdKeys(d.keys, d.vals)|
  {
    var ks := IdKeys(d.keys, d.vals);
    seq(|ks|, i requires 0 <= i < |ks| => d.vals[ks[i]].channel.value.id)
  }

  function Longs(xs: seq<int>): (r: seq<Field>)
    ensures |r| == |xs|
  {
    seq(|xs|, i requires 0 <= i < |xs| => Long(xs[i]))
  }

  /** Every node that carries an id has a series of at least t+1 values. */
  ghost predicate HasStep(vals: map<string, Node>, t: nat)
  {
    forall k :: k in vals && vals[k].channel.Some? ==> t < |vals[k].channel.value.data|
  }

  /** Every node that carries an id has a series of exactly steps values. */
  ghost predicate Shaped(d: Dict, steps: nat)
  {
    forall k :: k in d.vals && d.vals[k].channel.Some? ==> |d.vals[k].channel.value.data| == steps
  }

  /** One pass of the loop at lines 163-167: value t of each node that
      carries an id, in dict order. */
  function StepValues(keys: seq<string>, vals: map<string, Node>, t: nat): (r: seq<Field>)
    requires HasStep(vals, t)
    ensures |r| == |IdKeys(keys, vals)|
  {
    var ks := IdKeys(keys, vals);
    seq(|ks|, i requires 0 <= i < |ks| => Float(vals[ks[i]].channel.value.data[t]))
  }

  /** The first n passes of the loop at line 162. */
  function Values(d: Dict, steps: nat, n: nat): (r: seq<Field>)
    requires Shaped(d, steps) && n <= steps
  {
    if n == 0 then [] else Values(d, steps, n - 1) + StepValues(d.keys, d.vals, n - 1)
  }

  /** The spatial report (lines 157-167): the header, then the ids, then the
      values timestep by timestep.  Packing the ids fails when their number
      is not n_nodes, after the header is written. */
  function ReportOf(d: Dict, nNodes: nat, steps: nat): Written
    requires Shaped(d, steps)
  {
    var header := [Long(nNodes), Long(steps)];
    var ids := NodeIds(d);
    if |ids| != nNodes then Written(header, Some(StructError))
    else Written(header + Longs(ids) + Values(d, steps, steps), None)
  }

  lemma {:induction false} StepValuesAppend(keys: seq<string>, vals: map<string, Node>, t: nat, i: int)
    requires HasStep(vals, t) && 0 <= i < |keys|
    ensures StepValues(keys[..i + 1], vals, t) ==
      StepValues(keys[..i], vals, t) +
      (if keys[i] in vals && vals[keys[i]].channel.Some? then [Float(vals[keys[i]].channel.value.data[t])] else [])
  {
    assert keys[..i + 1][..i] == keys[..i];
  }

  lemma {:induction false} ShapedHasStep(d: Dict, steps: nat, t: nat)
    requires Shaped(d, steps) && t < steps
    ensures HasStep(d.vals, t)
  {
  }

  /** One pass of the loop at lines 163-167: value t of every node that
      carries an id, appended in dict order. */
  method WriteStep(table: NodeTable, t: nat, out: seq<Field>) returns (out': seq<Field>)
    requires table.Valid() && HasStep(table.nodes, t)
    ensures out' == out + StepValues(table.keys, table.nodes, t)
  {
    out' := out;
    var i := 0;
    while i < |table.keys|
      invariant 0 <= i <= |table.keys|
      invariant out' == out + StepValues(table.keys[..i], table.nodes, t)
    {
      var k := table.keys[i];
      StepValuesAppend(table.keys, table.nodes, t, i);
      assert k in table.nodes;
      var node := table.nodes[k];
      if node.channel.None? {
        i := i + 1;
        continue;
      }
      out' := out' + [Float(node.channel.value.data[t])];
      i := i + 1;
    }
    assert table.keys[..i] == table.keys;
  }

  /** The report as the loops at lines 157-167 write it. */
  method WriteReport(table: NodeTable, nNodes: nat, steps: nat) returns (w: Written)
    requires table.Valid() && Shaped(table.Contents(), steps)
    ensures w == ReportOf(table.Contents(), nNodes, steps)
  {
    var header := [Long(nNodes), Long(steps)];
    var ids := NodeIds(table.Contents());
    if |ids| != nNodes {
      return Written(header, Some(StructError));
    }
    var out := header + Longs(ids);
    var t := 0;
    while t < steps
      invariant 0 <= t <= steps
      invariant out == header + Longs(ids) + Values(table.Contents(), steps, t)
    {
      ShapedHasStep(table.Contents(), steps, t);
      out := WriteStep(table, t, out);
      t := t + 1;
    }
    w := Written(out, None);
  }

  /** Arithmetic helper: one more timestep adds one more block of n. */
  lemma {:induction false} MulSucc(a: nat, n: nat)
    ensures (a + 1) * n == a * n + n
  {
  }

  /** The values block holds one pass per timestep, each as long as the id
      list. */
  lemma {:induction false} ValuesLength(d: Dict, steps: nat, m: nat)
    requires Shaped(d, steps) && m <= steps
    ensures |Values(d, steps, m)| == m * |IdKeys(d.keys, d.vals)|
    decreases m
  {
    if m > 0 {
      ValuesLength(d, steps, m - 1);
      MulSucc(m - 1, |IdKeys(d.keys, d.vals)|);
    }
  }

  /** Later passes only append. */
  lemma {:induction false} ValuesPrefix(d: Dict, steps: nat, t: nat, m: nat)
    requires Shaped(d, steps) && t <= m <= steps
    ensures |Values(d, steps, t)| <= |Values(d, steps, m)|
    ensures Values(d, steps, m)[..|Values(d, steps, t)|] == Values(d, steps, t)
    decreases m - t
  {
    if t < m {
      ValuesPrefix(d, steps, t, m - 1);
      var before := Values(d, steps, m - 1);
      assert Values(d, steps, m)[..|before|] == before;
    }
  }

  /** Value t of the i-th id-bearing node sits at t * n + i of the values
      block, n being the number of such nodes. */
  lemma {:induction false} ValuesAt(d: Dict, steps: nat, t: nat, i: nat)
    requires Shaped(d, steps) && t < steps && i < |IdKeys(d.keys, d.vals)|
    ensures t * |IdKeys(d.keys, d.vals)| + i < |Values(d, steps, steps)|
    ensures Values(d, steps, steps)[t * |IdKeys(d.keys, d.vals)| + i] ==
      Float(d.vals[IdKeys(d.keys, d.vals)[i]].channel.value.data[t])
  {
    var n := |IdKeys(d.keys, d.vals)|;
    ValuesLength(d, steps, t);
    ValuesPrefix(d, steps, t + 1, steps);
    var upTo := Values(d, steps, t + 1);
    assert upTo == Values(d, steps, t) + StepValues(d.keys, d.vals, t);
    assert upTo[t * n + i] == StepValues(d.keys, d.vals, t)[i];
    assert Values(d, steps, steps)[t * n + i] == upTo[t * n + i];
  }

  /** The layout of a report whose ids pack: the header (n_nodes,
      n_tstep), then n_nodes ids, then n_nodes * n_tstep values. */
  lemma {:induction false} ReportLayout(d: Dict, nNodes: nat, steps: nat)
    requires Shaped(d, steps) && |NodeIds(d)| == nNodes
    ensures ReportOf(d, nNodes, steps).error == None
    ensures |ReportOf(d, nNodes, steps).fields| == 2 + nNodes + nNodes * steps
    ensures ReportOf(d, nNodes, steps).fields[0] == Long(nNodes) && ReportOf(d, nNodes, steps).fields[1] == Long(steps)
  {
    ValuesLength(d, steps, steps);
  }

  /** Field 2 + i of a report whose ids pack is the id of the i-th
      id-bearing node in dict order. */
  lemma {:induction false} ReportIds(d: Dict, nNodes: nat, steps: nat, i: nat)
    requires Shaped(d, steps) && |NodeIds(d)| == nNodes && i < nNodes
    ensures 2 + i < |ReportOf(d, nNodes, steps).fields|
    ensures ReportOf(d, nNodes, steps).fields[2 + i] == Long(d.vals[IdKeys(d.keys, d.vals)[i]].channel.value.id)
  {
    var longs := Longs(NodeIds(d));
    var w := [Long(nNodes), Long(steps)] + longs + Values(d, steps, steps);
    assert ReportOf(d, nNodes, steps) == Written(w, None);
    assert w[2 + i] == longs[i];
  }

  /** The values of a report whose ids pack: for each timestep t in order,
      value t of each id-bearing node, in the order of the id list. */
  lemma {:induction false} ReportValues(d: Dict, nNodes: nat, steps: nat, t: nat, i: nat)
    requires Shaped(d, steps) && |NodeIds(d)| == nNodes && t < steps && i < nNodes
    ensures 2 + nNodes + t * nNodes + i < |ReportOf(d, nNodes, steps).fields|
    ensures ReportOf(d, nNodes, steps).fields[2 + nNodes + t * nNodes + i] ==
      Float(d.vals[IdKeys(d.keys, d.vals)[i]].channel.value.data[t])
  {
    var values := Values(d, steps, steps);
    ValuesAt(d, steps, t, i);
    var front := [Long(nNodes), Long(steps)] + Longs(NodeIds(d));
    assert |front| == 2 + nNodes;
    assert ReportOf(d, nNodes, steps) == Written(front + values, None);
    IndexAfter(front, values, t * nNodes + i);
  }

  lemma {:induction false} IndexAfter<T>(front: seq<T>, back: seq<T>, k: nat)
    requires k < |back|
    ensures |front| + k < |front + back| && (front + back)[|front| + k] == back[k]
  {
  }

  /** Packing the ids fails exactly when their number is not n_nodes, and
      then the file holds the header alone. */
  lemma {:induction false} ReportFailure(d: Dict, nNodes: nat, steps: nat)
    requires Shaped(d, steps)
    ensures ReportOf(d, nNodes, steps).error.Some? <==> |NodeIds(d)| != nNodes
    ensures ReportOf(d, nNodes, steps).error.Some? ==>
      ReportOf(d, nNodes, steps) == Written([Long(nNodes), Long(steps)], Some(StructError))
  {
  }

  // ---------------------------------------------------------------- demographics

  /** An entry of the demographics "Nodes" list. */
  datatype Record = Record(nodeId: int, attributes: map<string, real>)

  /** The demographics document (lines 178-182). */
  datatype Demographics = Demographics(author: string, idReference: string, nodeCount: nat, nodes: seq<Record>)

  /** The records of the nodes that carry an id, in dict order: the id, and
      the node with 'data' and 'id' removed. */
  function RecordsOf(keys: seq<string>, vals: map<string, Node>): (r: seq<Record>)
    ensures |r| == |IdKeys(keys, vals)|
  {
    var ks := IdKeys(keys, vals);
    seq(|ks|, i requires 0 <= i < |ks| => Record(vals[ks[i]].channel.value.id, vals[ks[i]].attrs))
  }

  function DemographicsOf(d: Dict): Demographics
  {
    var records := RecordsOf(d.keys, d.vals);
    Demographics("ewenger", "Gridded world grump2.5arcmin", |records|, records)
  }

  /** The table after the loop at lines 172-177: every node lost its 'data'
      and 'id'. */
  function Stripped(d: Dict): Dict
  {
    Dict(d.keys, map k | k in d.vals :: Node(d.vals[k].attrs, None))
  }

  lemma {:induction false} RecordsAppend(keys: seq<string>, vals: map<string, Node>, i: int)
    requires 0 <= i < |keys|
    ensures RecordsOf(keys[..i + 1], vals) ==
      RecordsOf(keys[..i], vals) +
      (if keys[i] in vals && vals[keys[i]].channel.Some?
       then [Record(vals[keys[i]].channel.value.id, vals[keys[i]].attrs)] else [])
  {
    assert keys[..i + 1][..i] == keys[..i];
  }

  /** The table part way through the loop at lines 172-177: the first i
      nodes in dict order lost their 'data' and 'id'. */
  ghost function StrippedUpTo(d: Dict, i: nat): Dict
    requires i <= |d.keys|
  {
    Dict(d.keys, map k | k in d.vals :: if k in d.keys[..i] then Node(d.vals[k].attrs, None) else d.vals[k])
  }

  lemma {:induction false} StrippedEnds(d: Dict)
    requires WellFormed(d)
    ensures StrippedUpTo(d, 0) == d
    ensures StrippedUpTo(d, |d.keys|) == Stripped(d)
  {
    assert d.keys[..|d.keys|] == d.keys;
  }

  /** One more node of the loop: it still holds its original value, and
      stripping it is the update of that one key. */
  lemma {:induction false} StrippedStep(d: Dict, i: nat)
    requires WellFormed(d) && i < |d.keys|
    ensures d.keys[i] in StrippedUpTo(d, i).vals && StrippedUpTo(d, i).vals[d.keys[i]] == d.vals[d.keys[i]]
    ensures StrippedUpTo(d, i + 1) == Put(StrippedUpTo(d, i), d.keys[i], Node(d.vals[d.keys[i]].attrs, None))
    ensures d.vals[d.keys[i]].channel.None? ==> StrippedUpTo(d, i + 1) == StrippedUpTo(d, i)
  {
    var k := d.keys[i];
    assert k !in d.keys[..i];
    assert forall k' :: k' in d.keys[..i + 1] <==> k' in d.keys[..i] || k' == k;
  }

  /** One pass of the loop at lines 172-177: a node with an id loses its
      'data' and 'id', and its record is appended; a node without one is
      skipped. */
  method StripNode(table: NodeTable, ghost d: Dict, i: nat, records: seq<Record>) returns (records': seq<Record>)
    requires WellFormed(d) && i < |d.keys|
    requires table.Valid() && table.Contents() == StrippedUpTo(d, i)
    requires records == RecordsOf(d.keys[..i], d.vals)
    modifies table
    ensures table.Valid() && table.Contents() == StrippedUpTo(d, i + 1)
    ensures records' == RecordsOf(d.keys[..i + 1], d.vals)
  {
    var k := table.keys[i];
    RecordsAppend(d.keys, d.vals, i);
    StrippedStep(d, i);
    var node := table.nodes[k];
    records' := records;
    if node.channel.Some? {
      table.Set(k, Node(node.attrs, None));
      records' := records + [Record(node.channel.value.id, node.attrs)];
    }
  }

  /** The loop at lines 172-177 and the document of lines 178-182. */
  method WriteDemographics(table: NodeTable) returns (doc: Demographics)
    requires table.Valid()
    modifies table
    ensures table.Valid()
    ensures doc == DemographicsOf(old(table.Contents()))
    ensures table.Contents() == Stripped(old(table.Contents()))
  {
    ghost var d := table.Contents();
    StrippedEnds(d);
    var records: seq<Record> := [];
    var i := 0;
    while i < |table.keys|
      invariant 0 <= i <= |d.keys|
      invariant table.Valid() && table.Contents() == StrippedUpTo(d, i)
      invariant records == RecordsOf(d.keys[..i], d.vals)
    {
      records := StripNode(table, d, i, records);
      i := i + 1;
    }
    assert d.keys[..i] == d.keys;
    doc := Demographics("ewenger", "Gridded world grump2.5arcmin", |records|, records);
  }

  /** Each record of the demographics document belongs to the node of the
      same position in the id list: same id, and its attributes with the
      series and id removed; NodeCount is the number of id-bearing nodes. */
  lemma {:induction false} DemographicsMeaning(d: Dict)
    ensures DemographicsOf(d).nodeCount == |DemographicsOf(d).nodes| == |NodeIds(d)|
    ensures forall i :: 0 <= i < |NodeIds(d)| ==>
      DemographicsOf(d).nodes[i].nodeId == NodeIds(d)[i] &&
      DemographicsOf(d).nodes[i].attributes == d.vals[IdKeys(d.keys, d.vals)[i]].attrs
  {
  }

  /** After the demographics loop no node carries a series or an id, and
      every node keeps its attributes and its place. */
  lemma {:induction false} StrippedMeaning(d: Dict)
    requires WellFormed(d)
    ensures WellFormed(Stripped(d)) && NoIds(Stripped(d)) && Stripped(d).keys == d.keys
    ensures forall k :: k in d.vals ==> k in Stripped(d).vals && Stripped(d).vals[k].attrs == d.vals[k].attrs
  {
  }

  // ---------------------------------------------------------------- the run

  /** What the run leaves behind: the report file's fields, the
      demographics document if it got that far, and the error that stopped
      it, if any. */
  datatype Outputs = Outputs(report: seq<Field>, demographics: Option<Demographics>, error: Option<PyError>)

  /** The table get_nodes returns is well formed and carries no ids. */
  lemma {:induction false} FreshNodes(es: seq<GeoEntry>)
    requires NodesOf(Key, AdditionalNodes, es).Ok?
    ensures WellFormed(NodesOf(Key, AdditionalNodes, es).value)
    ensures NoIds(NodesOf(Key, AdditionalNodes, es).value)
  {
    var d := NodesOf(Key, AdditionalNodes, es).value;
    forall k | k in d.vals
      ensures d.vals[k].channel.None?
    {
      NodesKeys(Key, AdditionalNodes, es, k);
    }
    NodesKeys(Key, AdditionalNodes, es, "");
  }

  /** Lines 143-182 after the table is transformed: the nodes are read,
      annotated with the columns, and the report and the demographics are
      written. */
  function OutputsOf(es: seq<GeoEntry>, f: Frame): Outputs
    requires Rectangular(f)
  {
    match NodesOf(Key, AdditionalNodes, es)
    case Err(e) => Outputs([], None, Some(e))
    case Ok(d) =>
      match AnnotateOf(d, f)
      case Err(e) => Outputs([], None, Some(e))
      case Ok(a) =>
        FreshNodes(es);
        AnnotatedIds(d, f);
        var w := ReportOf(a, |f.columns|, f.steps);
        if w.error.Some? then Outputs(w.fields, None, w.error)
        else Outputs(w.fields, Some(DemographicsOf(a)), None)
  }

  /** The run, step by step on one node table. */
  method WriteOutputs(es: seq<GeoEntry>, f: Frame) returns (out: Outputs)
    requires Rectangular(f)
    ensures out == OutputsOf(es, f)
  {
    var nodes := GetNodes(es);
    if nodes.Err? {
      return Outputs([], None, Some(nodes.error));
    }
    var table := nodes.value;
    ghost var d := table.Contents();
    FreshNodes(es);
    var annotated := Annotate(table, f);
    if annotated.Err? {
      return Outputs([], None, Some(annotated.error));
    }
    AnnotatedIds(d, f);
    var w := WriteReport(table, |f.columns|, f.steps);
    if w.error.Some? {
      return Outputs(w.fields, None, w.error);
    }
    var doc := WriteDemographics(table);
    out := Outputs(w.fields, Some(doc), None);
  }

  /** The run fails exactly when get_nodes fails or some column fails its
      annotation; packing the ids never fails after a successful
      annotation. */
  lemma {:induction false} OutputsFailure(es: seq<GeoEntry>, f: Frame)
    requires Rectangular(f)
    ensures OutputsOf(es, f).error.Some? <==>
      NodesOf(Key, AdditionalNodes, es).Err? ||
      exists c :: 0 <= c < |f.columns| && ColumnError(NodesOf(Key, AdditionalNodes, es).value, f, c).Some?
    ensures OutputsOf(es, f).error.Some? ==> OutputsOf(es, f).error != Some(StructError)
  {
    if NodesOf(Key, AdditionalNodes, es).Ok? {
      var d := NodesOf(Key, AdditionalNodes, es).value;
      AnnotateFailure(d, f, |f.columns|);
      if AnnotateOf(d, f).Ok? {
        FreshNodes(es);
        AnnotatedIds(d, f);
      } else {
        var c :| 0 <= c < |f.columns| && ColumnError(d, f, c) == Some(AnnotateOf(d, f).error) &&
                 forall c' :: 0 <= c' < c ==> ColumnError(d, f, c').None?;
      }
    } else {
      NodesFailure(Key, AdditionalNodes, es);
    }
  }

  /** A successful run: the report holds the header (n_nodes, n_tstep), the
      n_nodes ids and n_nodes * n_tstep values; the demographics document
      counts n_nodes nodes and lists them in the order of the report's ids,
      with the same ids. */
  lemma {:induction false} OutputsMeaning(es: seq<GeoEntry>, f: Frame)
    requires Rectangular(f)
    requires OutputsOf(es, f).error.None?
    ensures var n := |f.columns|;
      |OutputsOf(es, f).report| == 2 + n + n * f.steps &&
      OutputsOf(es, f).report[0] == Long(n) && OutputsOf(es, f).report[1] == Long(f.steps) &&
      OutputsOf(es, f).demographics.Some? &&
      OutputsOf(es, f).demographics.value.nodeCount == n &&
      |OutputsOf(es, f).demographics.value.nodes| == n &&
      forall i :: 0 <= i < n ==>
        OutputsOf(es, f).report[2 + i] == Long(OutputsOf(es, f).demographics.value.nodes[i].nodeId)
  {
    var d := NodesOf(Key, AdditionalNodes, es).value;
    var a := AnnotateOf(d, f).value;
    FreshNodes(es);
    AnnotatedIds(d, f);
    ReportLayout(a, |f.columns|, f.steps);
    DemographicsMeaning(a);
    forall i | 0 <= i < |f.columns|
      ensures OutputsOf(es, f).report[2 + i] == Long(OutputsOf(es, f).demographics.value.nodes[i].nodeId)
    {
      ReportIds(a, |f.columns|, f.steps, i);
    }
  }
}
