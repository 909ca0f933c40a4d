/**
 * The Tiled ingestor: `parse_txt_accompanying_edf`, the parser of the `.txt` file that comes
 * with an EDF frame, and `TiledIngestor.add_scan_tiled`, which registers a frame file as an
 * external array node under the container path of its directory.
 *
 * File system access is a parameter: `readTxt(p)` gives the lines of the file at `p`, `None`
 * when there is no such file. Paths given to `add_scan_tiled` are absolute and normalised, and
 * are held as their components.
 */
module Ingestor {
  import opened Wrappers
  import opened PyStrings
  import opened CatalogTree

  // ---------------------------------------------------------------------------------------
  // parse_txt_accompanying_edf
  // ---------------------------------------------------------------------------------------

  /** `line.split(":", maxsplit=1)`: the text before the first colon and, when there is a
      colon, everything after it. */
  function SplitOnce(line: string): (parts: seq<string>)
    ensures 1 <= |parts| <= 2
    ensures |parts| == 2 <==> Contains(line, ":")
    ensures Lacks(parts[0], ':')
    ensures |parts| == 1 ==> parts[0] == line
    ensures |parts| == 2 ==> line == parts[0] + ":" + parts[1]
  {
    match Find(line, ":")
    case None =>
      assert forall k :: 0 <= k < |line| ==> line[k] != ':' by {
        forall k | 0 <= k < |line|
          ensures line[k] != ':'
        {
          assert !OccursAt(line, ":", k);
          assert line[k..k + 1] == [line[k]];
        }
      }
      [line]
    case Some(i) =>
      assert line[i..i + 1] == ":";
      assert forall k :: 0 <= k < i ==> line[k] != ':' by {
        forall k | 0 <= k < i
          ensures line[k] != ':'
        {
          assert !OccursAt(line, ":", k);
          assert line[k..k + 1] == [line[k]];
        }
      }
      assert line == line[..i] + ":" + line[i + 1..];
      [line[..i], line[i + 1..]]
  }

  /** What a line of the file is: a `key: value` pair (it has a colon), a keyless value, or
      the `!0` marker, which is skipped. Key and value are stripped of surrounding whitespace;
      only the first colon separates them. */
  datatype LineKind = Keyed(key: string, value: string) | Keyless(value: string) | Marker

  function Classify(line: string): LineKind
  {
    var parts := SplitOnce(line);
    if |parts| >= 2 then Keyed(Strip(parts[0]), Strip(parts[1]))
    else if Strip(parts[0]) != "!0" then Keyless(Strip(parts[0]))
    else Marker
  }

  /** A line is keyed exactly when it has a colon; the key is the stripped text before the
      first colon and the value the stripped rest, further colons included. */
  lemma ClassifySpec(line: string)
    ensures Classify(line).Keyed? <==> Contains(line, ":")
    ensures Classify(line).Keyed? ==>
      (exists before, after :: line == before + ":" + after && Lacks(before, ':') && Classify(line).key == Strip(before) && Classify(line).value == Strip(after))
    ensures Classify(line).Keyless? ==> Classify(line).value == Strip(line) && Classify(line).value != "!0"
    ensures Classify(line).Marker? ==> !Contains(line, ":") && Strip(line) == "!0"
  {
    var parts := SplitOnce(line);
    if |parts| == 2 {
      assert line == parts[0] + ":" + parts[1];
    }
  }

  const KeylessPrefix: string := "Keyless Parameter #"

  /** The key under which the `n`-th keyless value is stored. */
  function KeylessKey(n: nat): string
  {
    KeylessPrefix + NatToString(n)
  }

  /** The parameters read so far and the number of keyless values among them. */
  datatype TxtState = TxtState(params: map<string, string>, keyless: nat)

  /** One pass of the loop of lines 118-125. */
  function Step(st: TxtState, kind: LineKind): TxtState
  {
    match kind
    case Keyed(k, v) => TxtState(st.params[k := v], st.keyless)
    case Keyless(v) => TxtState(st.params[KeylessKey(st.keyless) := v], st.keyless + 1)
    case Marker => st
  }

  function Fold(kinds: seq<LineKind>): TxtState
  {
    if |kinds| == 0 then TxtState(map[], 0)
    else Step(Fold(kinds[..|kinds| - 1]), kinds[|kinds| - 1])
  }

  function Kinds(lines: seq<string>): (r: seq<LineKind>)
    ensures |r| == |lines| && forall i :: 0 <= i < |lines| ==> r[i] == Classify(lines[i])
  {
    seq(|lines|, i requires 0 <= i < |lines| => Classify(lines[i]))
  }

  /** The companion file of a path given as a string: every ".edf" becomes ".txt". */
  function TxtPath(filepath: string): string
  {
    ReplaceAll(filepath, ".edf", ".txt")
  }

  /** `parse_txt_accompanying_edf(filepath)` for a string path. */
  function ParseTxt(filepath: string, readTxt: string -> Option<seq<string>>): map<string, string>
  {
    var lines := readTxt(TxtPath(filepath));
    if lines.None? then map[] else Fold(Kinds(lines.value)).params
  }

  method ParseTxtAccompanyingEdf(filepath: string, readTxt: string -> Option<seq<string>>)
    returns (txtParams: map<string, string>)
    ensures txtParams == ParseTxt(filepath, readTxt)
  {
    var txtFilepath := TxtPath(filepath);
    var read := readTxt(txtFilepath);
    if read.None? {
      return map[];
    }
    txtParams := ParseLines(read.value);
  }

  /** The loop of lines 116-126 over the lines of the file. */
  method ParseLines(lines: seq<string>) returns (txtParams: map<string, string>)
    ensures txtParams == Fold(Kinds(lines)).params
  {
    ghost var kinds := Kinds(lines);
    var keylessLines := 0;
    txtParams := map[];
    var i := 0;
    while i < |lines|
      invariant 0 <= i <= |lines|
      invariant Fold(kinds[..i]) == TxtState(txtParams, keylessLines)
    {
      assert kinds[..i + 1][..i] == kinds[..i];
      ghost var next := Step(Fold(kinds[..i]), kinds[i]);
      assert Fold(kinds[..i + 1]) == next;
      var lineComponents := SplitOnce(lines[i]);
      if |lineComponents| >= 2 {
        assert kinds[i] == Keyed(Strip(lineComponents[0]), Strip(lineComponents[1]));
        txtParams := txtParams[Strip(lineComponents[0]) := Strip(lineComponents[1])];
      } else if Strip(lineComponents[0]) != "!0" {
        assert kinds[i] == Keyless(Strip(lineComponents[0]));
        txtParams := txtParams[KeylessKey(keylessLines) := Strip(lineComponents[0])];
        keylessLines := keylessLines + 1;
      } else {
        assert kinds[i] == Marker;
      }
      assert next == TxtState(txtParams, keylessLines);
      i := i + 1;
    }
    assert kinds[..i] == kinds;
  }

  /** The keyless values of a file, in order. */
  function KeylessValues(kinds: seq<LineKind>): seq<string>
  {
    if |kinds| == 0 then []
    else KeylessValues(kinds[..|kinds| - 1]) + (if kinds[|kinds| - 1].Keyless? then [kinds[|kinds| - 1].value] else [])
  }

  /** The counter counts the keyless values: `!0` lines and keyed lines do not advance it. */
  lemma {:induction false} KeylessCount(kinds: seq<LineKind>)
    ensures Fold(kinds).keyless == |KeylessValues(kinds)|
  {
    if |kinds| > 0 {
      KeylessCount(kinds[..|kinds| - 1]);
    }
  }

  /** Distinct counters give distinct keys. */
  lemma KeylessKeyInjective(m: nat, n: nat)
    requires KeylessKey(m) == KeylessKey(n)
    ensures m == n
  {
    var p := KeylessPrefix;
    assert NatToString(m) == KeylessKey(m)[|p|..];
    assert NatToString(n) == KeylessKey(n)[|p|..];
    NatToStringRoundTrip(m);
    NatToStringRoundTrip(n);
  }

  lemma KeylessKeyPrefix(n: nat)
    ensures StartsWith(KeylessKey(n), KeylessPrefix)
  {
    StartsWithConcat(KeylessPrefix, NatToString(n));
  }

  /** Each entry comes from a line: the keys are those of the keyed lines and the keys of
      the keyless values counted so far. */
  lemma {:induction false} ParsedKeys(kinds: seq<LineKind>)
    ensures forall k :: k in Fold(kinds).params <==>
      (exists j :: 0 <= j < |kinds| && kinds[j].Keyed? && kinds[j].key == k)
      || (exists n :: 0 <= n < |KeylessValues(kinds)| && KeylessKey(n) == k)
  {
    if |kinds| > 0 {
      var init := kinds[..|kinds| - 1];
      ParsedKeys(init);
      KeylessCount(init);
      forall k
        ensures k in Fold(kinds).params <==>
          (exists j :: 0 <= j < |kinds| && kinds[j].Keyed? && kinds[j].key == k)
          || (exists n :: 0 <= n < |KeylessValues(kinds)| && KeylessKey(n) == k)
      {
        if exists j :: 0 <= j < |init| && init[j].Keyed? && init[j].key == k {
          var j :| 0 <= j < |init| && init[j].Keyed? && init[j].key == k;
          assert kinds[j] == init[j];
        }
        if exists j :: 0 <= j < |kinds| && kinds[j].Keyed? && kinds[j].key == k {
          var j :| 0 <= j < |kinds| && kinds[j].Keyed? && kinds[j].key == k;
          if j < |init| {
            assert init[j] == kinds[j];
          }
        }
      }
    }
  }

  /** A keyed line's value is kept unless a later line has the same key (the last one wins);
      a key that does not look like a keyless key is never taken by a keyless value. */
  lemma {:induction false} LastKeyedWins(kinds: seq<LineKind>, j: nat)
    requires j < |kinds| && kinds[j].Keyed?
    requires !StartsWith(kinds[j].key, KeylessPrefix)
    requires forall i :: j < i < |kinds| && kinds[i].Keyed? ==> kinds[i].key != kinds[j].key
    ensures kinds[j].key in Fold(kinds).params
    ensures Fold(kinds).params[kinds[j].key] == kinds[j].value
  {
    var init, l := kinds[..|kinds| - 1], kinds[|kinds| - 1];
    if j < |init| {
      assert init[j] == kinds[j];
      forall i | j < i < |init| && init[i].Keyed?
        ensures init[i].key != init[j].key
      {
        assert init[i] == kinds[i];
      }
      LastKeyedWins(init, j);
      if l.Keyless? {
        KeylessKeyPrefix(Fold(init).keyless);
      }
    }
  }

  /** The `n`-th keyless value is stored under "Keyless Parameter #n", unless some keyed line
      uses that key. */
  lemma {:induction false} KeylessEntry(kinds: seq<LineKind>, n: nat)
    requires n < |KeylessValues(kinds)|
    requires forall j :: 0 <= j < |kinds| && kinds[j].Keyed? ==> kinds[j].key != KeylessKey(n)
    ensures KeylessKey(n) in Fold(kinds).params
    ensures Fold(kinds).params[KeylessKey(n)] == KeylessValues(kinds)[n]
  {
    var init, l := kinds[..|kinds| - 1], kinds[|kinds| - 1];
    KeylessCount(init);
    if n < |KeylessValues(init)| {
      forall j | 0 <= j < |init| && init[j].Keyed?
        ensures init[j].key != KeylessKey(n)
      {
        assert init[j] == kinds[j];
      }
      KeylessEntry(init, n);
      if l.Keyless? && KeylessKey(Fold(init).keyless) == KeylessKey(n) {
        KeylessKeyInjective(Fold(init).keyless, n);
      }
    }
  }

  /** A name whose only ".edf" is its extension gets the ".txt" companion. */
  lemma TxtPathOfEdf(base: string)
    requires !Contains(base, ".edf")
    ensures TxtPath(base + ".edf") == base + ".txt"
  {
    var s := base + ".edf" + "";
    ContainsIff(base, ".edf");
    forall j | 0 <= j < |base|
      ensures !OccursAt(s, ".edf", j)
    {
      if j + 4 <= |base| {
        assert !OccursAt(base, ".edf", j);
        assert base[j..j + 4] == s[j..j + 4];
      } else {
        var m := |base| - j;
        assert 1 <= m <= 3;
        assert s[j..j + 4][m] == s[|base|] == '.';
        assert ".edf"[m] != '.';
      }
    }
    SplitAfterFirst(base, ".edf", "");
    assert Split("", ".edf") == [""];
    assert s == base + ".edf";
    assert Split(s, ".edf") == [base, ""];
    assert Join([base, ""], ".txt") == base + ".txt" + "";
    assert TxtPath(s) == Join(Split(s, ".edf"), ".txt");
  }

  // ---------------------------------------------------------------------------------------
  // add_scan_tiled: paths
  // ---------------------------------------------------------------------------------------

  /** The string form of an absolute path held as its components. */
  function PathString(parts: seq<string>): string
  {
    "/" + Join(parts, "/")
  }

  /** The number of leading components two paths share (`os.path.commonpath`). */
  function CommonPrefixLen(a: seq<string>, b: seq<string>): (n: nat)
    ensures n <= |a| && n <= |b| && a[..n] == b[..n]
    ensures n < |a| && n < |b| ==> a[n] != b[n]
  {
    if |a| == 0 || |b| == 0 || a[0] != b[0] then 0
    else
      var n := CommonPrefixLen(a[1..], b[1..]);
      assert a[..n + 1] == [a[0]] + a[1..][..n] && b[..n + 1] == [b[0]] + b[1..][..n];
      n + 1
  }

  function Ups(n: nat): (r: seq<string>)
    ensures |r| == n && forall k :: 0 <= k < n ==> r[k] == ".."
  {
    seq(n, _ => "..")
  }

  /** `os.path.relpath(scan, root)` on absolute normalised paths: up from `root` to the common
      ancestor, then down to `scan`; "." when they are the same path. */
  function RelPath(root: seq<string>, scan: seq<string>): (r: seq<string>)
    ensures |r| > 0
  {
    var c := CommonPrefixLen(root, scan);
    var rel := Ups(|root| - c) + scan[c..];
    if rel == [] then ["."] else rel
  }

  /** A path inside `root` is reached by its components below `root`. */
  lemma RelPathInside(root: seq<string>, below: seq<string>)
    requires |below| > 0
    ensures RelPath(root, root + below) == below
  {
    var scan := root + below;
    var c := CommonPrefixLen(root, scan);
    assert scan[..|root|] == root;
    assert scan[c..] == below;
  }

  /** `os.path.split` of the relative path then `normpath(...).split(os.sep)`: the directory
      components, "." when the file has no directory of its own. */
  function ContainerParts(rel: seq<string>): seq<string>
    requires |rel| > 0
  {
    if |rel| == 1 then ["."] else rel[..|rel| - 1]
  }

  /** `os.path.splitext(name)[0]`: the name without the text from its last dot, unless that
      dot only follows leading dots (".bashrc" has no extension). */
  function StripExtension(name: string): string
  {
    match LastIndexOf(name, '.')
    case None => name
    case Some(i) => if exists k :: 0 <= k < i && name[k] != '.' then name[..i] else name
  }

  lemma StripExtensionSpec(stem: string, ext: string)
    requires Lacks(ext, '.') && exists k :: 0 <= k < |stem| && stem[k] != '.'
    ensures StripExtension(stem + "." + ext) == stem
  {
    var name := stem + "." + ext;
    var k :| 0 <= k < |stem| && stem[k] != '.';
    assert name[|stem|] == '.' && name[k] == stem[k];
    assert forall j :: |stem| < j < |name| ==> name[j] == ext[j - |stem| - 1];
    assert name[..|stem|] == stem;
  }

  // ---------------------------------------------------------------------------------------
  // add_scan_tiled: the catalog
  // ---------------------------------------------------------------------------------------

  const FrameShape: seq<nat> := [1679, 1475]

  /** The array node registered for a frame file: float32 "gb" frames, int32 "edf" frames
      (any other suffix is treated as "edf"), metadata from the companion file of an EDF file. */
  function FrameInfo(path: string, dataUri: string, readTxt: string -> Option<seq<string>>): ArrayInfo
  {
    var gb := EndsWith(path, ".gb");
    ArrayInfo(if gb then "float32" else "int32", FrameShape,
              if gb then "application/x-gb" else "application/x-edf",
              if gb then "gb" else "edf", dataUri,
              if EndsWith(path, ".edf") then ParseTxt(path, readTxt) else map[])
  }

  /** The state of the container walk: the tree, where it stands, and whether it reached a
      node that is not a container. */
  datatype Walk = Walk(nodes: map<Path, Node>, at: Path, failed: bool)

  /** The loop of lines 36-42 from `cur` down `parts`: descend into an existing child, create
      a container for a missing one. */
  function WalkFrom(nodes: map<Path, Node>, cur: Path, parts: seq<string>): Walk
    decreases |parts|
  {
    if |parts| == 0 then Walk(nodes, cur, false)
    else
      var child := cur + [parts[0]];
      if child in nodes && nodes[child] != Container then Walk(nodes, child, true)
      else WalkFrom(WithContainer(nodes, cur, parts[0]), child, parts[1..])
  }

  /** The walk keeps the tree a tree and leaves every node it had as it was. */
  lemma {:induction false} WalkKeeps(nodes: map<Path, Node>, cur: Path, parts: seq<string>)
    requires WellFormed(nodes) && cur in nodes && nodes[cur] == Container
    ensures var w := WalkFrom(nodes, cur, parts);
      && WellFormed(w.nodes)
      && forall q :: q in nodes ==> q in w.nodes && w.nodes[q] == nodes[q]
    decreases |parts|
  {
    if |parts| > 0 {
      var child := cur + [parts[0]];
      if !(child in nodes && nodes[child] != Container) {
        WithContainerFacts(nodes, cur, parts[0]);
        WithContainerWellFormed(nodes, cur, parts[0]);
        WalkKeeps(WithContainer(nodes, cur, parts[0]), child, parts[1..]);
      }
    }
  }

  /** The only nodes the walk adds are containers on the walked path. */
  lemma {:induction false} WalkAddsPath(nodes: map<Path, Node>, cur: Path, parts: seq<string>)
    ensures var w := WalkFrom(nodes, cur, parts);
      forall q :: q in w.nodes && q !in nodes ==>
        w.nodes[q] == Container && exists k :: 1 <= k <= |parts| && q == cur + parts[..k]
    decreases |parts|
  {
    if |parts| > 0 {
      var child := cur + [parts[0]];
      if !(child in nodes && nodes[child] != Container) {
        var n1 := WithContainer(nodes, cur, parts[0]);
        WithContainerFacts(nodes, cur, parts[0]);
        WalkAddsPath(n1, child, parts[1..]);
        WalkKeepsNodes(n1, child, parts[1..]);
        var w := WalkFrom(n1, child, parts[1..]);
        forall q | q in w.nodes && q !in nodes
          ensures w.nodes[q] == Container && exists k :: 1 <= k <= |parts| && q == cur + parts[..k]
        {
          if q in n1 {
            assert q == child && child == cur + parts[..1];
          } else {
            var k :| 1 <= k <= |parts[1..]| && q == child + parts[1..][..k];
            PathStep(cur, parts, k);
          }
        }
      }
    }
  }

  lemma PathStep(cur: Path, parts: seq<string>, k: nat)
    requires k < |parts|
    ensures cur + [parts[0]] + parts[1..][..k] == cur + parts[..k + 1]
  {
    assert parts[..k + 1] == [parts[0]] + parts[1..][..k];
  }

  /** A walk that does not fail ends at `cur + parts`, with a container at every step. */
  lemma {:induction false} WalkReaches(nodes: map<Path, Node>, cur: Path, parts: seq<string>)
    requires cur in nodes && nodes[cur] == Container
    ensures var w := WalkFrom(nodes, cur, parts);
      !w.failed ==> w.at == cur + parts && forall k :: 0 <= k <= |parts| ==> cur + parts[..k] in w.nodes && w.nodes[cur + parts[..k]] == Container
    decreases |parts|
  {
    if |parts| > 0 {
      var child := cur + [parts[0]];
      if !(child in nodes && nodes[child] != Container) {
        var n1 := WithContainer(nodes, cur, parts[0]);
        WithContainerFacts(nodes, cur, parts[0]);
        WalkReaches(n1, child, parts[1..]);
        var w := WalkFrom(n1, child, parts[1..]);
        if !w.failed {
          WalkKeepsNodes(n1, child, parts[1..]);
          forall k | 0 <= k <= |parts|
            ensures cur + parts[..k] in w.nodes && w.nodes[cur + parts[..k]] == Container
          {
            if k == 0 {
              assert cur + parts[..k] == cur;
            } else {
              assert cur + parts[..k] == child + parts[1..][..k - 1];
            }
          }
          assert child + parts[1..] == cur + parts;
        }
      }
    } else {
      assert cur + parts[..0] == cur;
    }
  }

  /** The walk never changes or removes a node (without assuming a well-formed tree). */
  lemma {:induction false} WalkKeepsNodes(nodes: map<Path, Node>, cur: Path, parts: seq<string>)
    ensures var w := WalkFrom(nodes, cur, parts);
      forall q :: q in nodes ==> q in w.nodes && w.nodes[q] == nodes[q]
    decreases |parts|
  {
    if |parts| > 0 {
      var child := cur + [parts[0]];
      if !(child in nodes && nodes[child] != Container) {
        WithContainerFacts(nodes, cur, parts[0]);
        WalkKeepsNodes(WithContainer(nodes, cur, parts[0]), child, parts[1..]);
      }
    }
  }

  /** Walking a path that was walked before creates nothing: existing containers are reused. */
  lemma {:induction false} WalkAgain(nodes: map<Path, Node>, cur: Path, parts: seq<string>)
    requires forall k :: 0 <= k <= |parts| ==> cur + parts[..k] in nodes && nodes[cur + parts[..k]] == Container
    ensures WalkFrom(nodes, cur, parts) == Walk(nodes, cur + parts, false)
    decreases |parts|
  {
    if |parts| > 0 {
      var child := cur + [parts[0]];
      assert child == cur + parts[..1];
      forall k | 0 <= k <= |parts| - 1
        ensures child + parts[1..][..k] in nodes && nodes[child + parts[1..][..k]] == Container
      {
        assert child + parts[1..][..k] == cur + parts[..k + 1];
      }
      WalkAgain(nodes, child, parts[1..]);
      assert child + parts[1..] == cur + parts;
    } else {
      assert cur + parts[..0] == cur;
    }
  }

  /** Lines 43-88 once the walk has reached `at`: an existing node `key` is deleted (with
      everything under it) and the array node is created in its place. */
  function Register(nodes: map<Path, Node>, at: Path, key: string, info: ArrayInfo): map<Path, Node>
  {
    var target := at + [key];
    var cleared := if target in nodes then WithoutSubtree(nodes, target) else nodes;
    cleared[target := ArrayNode(info)]
  }

  /** Registering keeps a tree a tree, puts the node at `at + [key]`, keeps every node outside
      the replaced one, and adds no other node. */
  lemma RegisterSpec(nodes: map<Path, Node>, at: Path, key: string, info: ArrayInfo)
    requires WellFormed(nodes) && at in nodes && nodes[at] == Container
    ensures var r, target := Register(nodes, at, key, info), at + [key];
      && WellFormed(r)
      && target in r && r[target] == ArrayNode(info)
      && (forall q :: q in nodes && !IsPrefix(target, q) ==> q in r && r[q] == nodes[q])
      && (forall q :: q in r ==> q == target || (q in nodes && !IsPrefix(target, q)))
  {
    var target := at + [key];
    var cleared := if target in nodes then WithoutSubtree(nodes, target) else nodes;
    if target in nodes {
      WithoutSubtreeWellFormed(nodes, target);
    } else {
      forall q | q in nodes
        ensures !IsPrefix(target, q)
      {
        if |target| <= |q| {
          AncestorPresent(nodes, q, |target|);
        }
      }
    }
    assert forall q :: q in cleared <==> q in nodes && !IsPrefix(target, q);
    assert !IsPrefix(target, at);
    var r := cleared[target := ArrayNode(info)];
    assert target[..|target| - 1] == at;
    forall q | q in r && q != []
      ensures q[..|q| - 1] in r && r[q[..|q| - 1]] == Container
    {
      if q != target {
        PrefixOfParent(target, q);
      }
    }
  }

  /** A prefix of a path's parent is a prefix of the path. */
  lemma PrefixOfParent(p: Path, q: Path)
    requires q != []
    ensures IsPrefix(p, q[..|q| - 1]) ==> IsPrefix(p, q)
  {
  }

  /** In a tree, every ancestor of a node is present. */
  lemma {:induction false} AncestorPresent(nodes: map<Path, Node>, q: Path, k: nat)
    requires WellFormed(nodes) && q in nodes && k <= |q|
    ensures q[..k] in nodes
    decreases |q| - k
  {
    if k < |q| {
      var up := q[..|q| - 1];
      AncestorPresent(nodes, up, k);
      assert up[..k] == q[..k];
    } else {
      assert q[..k] == q;
    }
  }

  /** Registering the same node again changes nothing. */
  lemma RegisterAgain(nodes: map<Path, Node>, at: Path, key: string, info: ArrayInfo)
    requires WellFormed(nodes) && at in nodes && nodes[at] == Container
    ensures Register(Register(nodes, at, key, info), at, key, info) == Register(nodes, at, key, info)
  {
    var target := at + [key];
    var once := Register(nodes, at, key, info);
    var cleared := if target in nodes then WithoutSubtree(nodes, target) else nodes;
    RegisterSpec(nodes, at, key, info);
    assert forall q :: q in cleared ==> !IsPrefix(target, q);
    assert WithoutSubtree(once, target) == cleared;
  }

  /** Walking `parts` from `root` and registering `key` at the end: the new catalog and the
      new node's path; `KeyError` when `root` is not a container. */
  function Place(nodes: map<Path, Node>, root: Path, parts: seq<string>, key: string, info: ArrayInfo)
    : (map<Path, Node>, Result<Path>)
  {
    if root !in nodes || nodes[root] != Container then (nodes, Raised(KeyError))
    else
      var w := WalkFrom(nodes, root, parts);
      if w.failed then (w.nodes, Raised(AttributeError))
      else (Register(w.nodes, w.at, key, info), Ok(w.at + [key]))
  }

  /** What `add_scan_tiled` does to the catalog and what it returns (the new node's path, from
      which the client forms its URI). */
  function AddScan(nodes: map<Path, Node>, rawRoot: Path, rawData: seq<string>, scan: seq<string>,
                   readTxt: string -> Option<seq<string>>, dataUri: string): (map<Path, Node>, Result<Path>)
  {
    var rel := RelPath(rawData, scan);
    Place(nodes, rawRoot, ContainerParts(rel), StripExtension(rel[|rel| - 1]),
          FrameInfo(PathString(scan), dataUri, readTxt))
  }

  /** After the walk and the registration the catalog is still a tree; when placing fails,
      the only nodes added are containers. */
  lemma PlaceWellFormed(nodes: map<Path, Node>, root: Path, parts: seq<string>, key: string, info: ArrayInfo)
    requires WellFormed(nodes)
    ensures var (after, r) := Place(nodes, root, parts, key, info);
      && WellFormed(after)
      && (r.Raised? ==> forall q :: q in after ==> q in nodes || after[q] == Container)
  {
    if root in nodes && nodes[root] == Container {
      var w := WalkFrom(nodes, root, parts);
      WalkKeeps(nodes, root, parts);
      WalkAddsPath(nodes, root, parts);
      if !w.failed {
        WalkReaches(nodes, root, parts);
        assert parts[..|parts|] == parts;
        RegisterSpec(w.nodes, w.at, key, info);
      }
    }
  }

  /** On success the new node sits at the root followed by the directory components and the
      key, and holds the given description; every directory component is a container; every
      node outside the replaced one is kept as it was, and the only other nodes added are the
      containers of the path. */
  lemma PlaceSucceeds(nodes: map<Path, Node>, root: Path, parts: seq<string>, key: string, info: ArrayInfo)
    requires WellFormed(nodes)
    ensures var (after, r) := Place(nodes, root, parts, key, info);
      r.Ok? ==>
        && r.value == root + parts + [key]
        && r.value in after && after[r.value] == ArrayNode(info)
        && (forall k :: 0 <= k <= |parts| ==> root + parts[..k] in after && after[root + parts[..k]] == Container)
        && (forall q :: q in nodes && !IsPrefix(r.value, q) ==> q in after && after[q] == nodes[q])
        && (forall q :: q in after && q !in nodes ==> q == r.value || exists k :: 1 <= k <= |parts| && q == root + parts[..k])
  {
    if root in nodes && nodes[root] == Container {
      var w := WalkFrom(nodes, root, parts);
      if !w.failed {
        WalkKeeps(nodes, root, parts);
        WalkReaches(nodes, root, parts);
        WalkAddsPath(nodes, root, parts);
        assert parts[..|parts|] == parts;
        RegisterSpec(w.nodes, w.at, key, info);
        var target := w.at + [key];
        forall k | 0 <= k <= |parts|
          ensures !IsPrefix(target, root + parts[..k])
        {
        }
        forall q | q in nodes && !IsPrefix(target, q)
          ensures q in w.nodes && w.nodes[q] == nodes[q]
        {
        }
      }
    }
  }

  /** Placing the same node twice gives the catalog the first call gave: the second call
      reuses every container and replaces the node by an identical one. */
  lemma PlaceTwice(nodes: map<Path, Node>, root: Path, parts: seq<string>, key: string, info: ArrayInfo)
    requires WellFormed(nodes) && Place(nodes, root, parts, key, info).1.Ok?
    ensures var first := Place(nodes, root, parts, key, info);
      Place(first.0, root, parts, key, info) == first
  {
    var (after, r) := Place(nodes, root, parts, key, info);
    var w := WalkFrom(nodes, root, parts);
    WalkKeeps(nodes, root, parts);
    WalkReaches(nodes, root, parts);
    assert root + parts[..0] == root;
    WalkAgain(after, root, parts);
    assert parts[..|parts|] == parts;
    assert w.at in w.nodes && w.nodes[w.at] == Container;
    RegisterAgain(w.nodes, w.at, key, info);
  }

  /** `TiledIngestor`: the catalog it writes to, the container the raw data goes under, and
      the directory the raw data lives in. */
  class TiledIngestor {
    const tree: Tree
    const rawTiledRoot: Path
    const pathToRawData: seq<string>

    constructor (tree: Tree, rawTiledRoot: Path, pathToRawData: seq<string>)
      ensures this.tree == tree && this.rawTiledRoot == rawTiledRoot && this.pathToRawData == pathToRawData
    {
      this.tree := tree;
      this.rawTiledRoot := rawTiledRoot;
      this.pathToRawData := pathToRawData;
    }

    /** `add_scan_tiled(scan_filepath)`; `dataUri` is `ensure_uri(scan_filepath)`. */
    method AddScanTiled(scan: seq<string>, readTxt: string -> Option<seq<string>>, dataUri: string)
      returns (r: Result<Path>)
      requires tree.Valid()
      modifies tree
      ensures tree.Valid()
      ensures (tree.nodes, r) == AddScan(old(tree.nodes), rawTiledRoot, pathToRawData, scan, readTxt, dataUri)
    {
      var rel := RelPath(pathToRawData, scan);
      var key := StripExtension(rel[|rel| - 1]);
      var path := PathString(scan);
      var metadata := map[];
      if EndsWith(path, ".edf") {
        metadata := ParseTxtAccompanyingEdf(path, readTxt);
      }
      var gb := EndsWith(path, ".gb");
      var info := ArrayInfo(if gb then "float32" else "int32", [1679, 1475],
                            if gb then "application/x-gb" else "application/x-edf",
                            if gb then "gb" else "edf", dataUri, metadata);
      assert info == FrameInfo(path, dataUri, readTxt);
      r := PlaceInTree(ContainerParts(rel), key, info);
    }

    /** The container walk of lines 35-42, then lines 45-88: delete an existing node `key`
        and create the array node. */
    method PlaceInTree(parts: seq<string>, key: string, info: ArrayInfo) returns (r: Result<Path>)
      requires tree.Valid()
      modifies tree
      ensures tree.Valid()
      ensures (tree.nodes, r) == Place(old(tree.nodes), rawTiledRoot, parts, key, info)
    {
      if rawTiledRoot !in tree.nodes || tree.nodes[rawTiledRoot] != Container {
        return Raised(KeyError);
      }
      var current, failed := WalkContainers(parts);
      if failed {
        return Raised(AttributeError);
      }
      if current + [key] in tree.nodes {
        tree.Delete(current, key);
      }
      assert !IsPrefix(current + [key], current);
      var node := tree.NewArray(current, key, info);
      r := Ok(node);
    }

    /** The loop of lines 36-42: descend into existing children, create the missing ones. */
    method WalkContainers(parts: seq<string>) returns (current: Path, failed: bool)
      requires tree.Valid() && rawTiledRoot in tree.nodes && tree.nodes[rawTiledRoot] == Container
      modifies tree
      ensures tree.Valid()
      ensures Walk(tree.nodes, current, failed) == WalkFrom(old(tree.nodes), rawTiledRoot, parts)
      ensures !failed ==> current in tree.nodes && tree.nodes[current] == Container
    {
      current := rawTiledRoot;
      var i := 0;
      while i < |parts|
        invariant 0 <= i <= |parts|
        invariant tree.Valid() && current in tree.nodes && tree.nodes[current] == Container
        invariant WalkFrom(tree.nodes, current, parts[i..]) == WalkFrom(old(tree.nodes), rawTiledRoot, parts)
      {
        var child := current + [parts[i]];
        assert parts[i..][0] == parts[i] && parts[i..][1..] == parts[i + 1..];
        if child in tree.nodes {
          if tree.nodes[child] != Container {
            return child, true;
          }
          current := child;
        } else {
          current := tree.GetOrCreateContainer(current, parts[i]);
        }
        i := i + 1;
      }
      failed := false;
    }
  }
}
