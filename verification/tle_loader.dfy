/** The element-set catalogue loader: the three-line text parser used after a
    download, the whole-hour cache freshness rule, and the policy that picks
    between the cached catalogue and a fresh download.

    The filesystem, the HTTP fetch and JSON (de)serialisation are not modelled
    as such: the cache file is a value of type `CacheFile`, the fetch is an
    input `Result` holding the lines of the response body, and the clock is an
    input count of seconds since the Unix epoch. */
module TleLoader {
  import opened Wrappers

  /** One catalogue entry: the two element lines and the satellite's name. */
  datatype TleData = TleData(line1: string, line2: string, name: string)

  // ---------------------------------------------------------------------
  // Text helpers: `char::is_whitespace`, `str::trim`, `str::starts_with`
  // ---------------------------------------------------------------------

  /** The Unicode White_Space property, as Rust's `char::is_whitespace` tests it. */
  predicate IsWhitespace(c: char)
  {
    || c == ' ' || ('\t' <= c <= '\r')
    || c == '\U{85}' || c == '\U{A0}' || c == '\U{1680}'
    || ('\U{2000}' <= c <= '\U{200A}')
    || c == '\U{2028}' || c == '\U{2029}' || c == '\U{202F}' || c == '\U{205F}'
    || c == '\U{3000}'
  }

  /** The first non-whitespace position at or after i (|s| if there is none). */
  function FirstSolid(s: string, i: nat): (j: nat)
    requires i <= |s|
    ensures i <= j <= |s|
    ensures forall k :: i <= k < j ==> IsWhitespace(s[k])
    ensures j < |s| ==> !IsWhitespace(s[j])
    decreases |s| - i
  {
    if i < |s| && IsWhitespace(s[i]) then FirstSolid(s, i + 1) else i
  }

  /** The end of the last non-whitespace character before j, searching no
      further back than lo. */
  function LastSolid(s: string, lo: nat, j: nat): (e: nat)
    requires lo <= j <= |s|
    ensures lo <= e <= j
    ensures forall k :: e <= k < j ==> IsWhitespace(s[k])
    ensures lo < e ==> !IsWhitespace(s[e - 1])
  {
    if lo < j && IsWhitespace(s[j - 1]) then LastSolid(s, lo, j - 1) else j
  }

  /** How many whitespace characters `str::trim` drops at the front. */
  function Lead(s: string): nat
  {
    FirstSolid(s, 0)
  }

  /** `str::trim`: the middle slice left after dropping whitespace on both ends. */
  function Trim(s: string): (r: string)
    ensures Lead(s) + |r| <= |s| && r == s[Lead(s)..Lead(s) + |r|]
    ensures forall k :: 0 <= k < Lead(s) ==> IsWhitespace(s[k])
    ensures forall k :: Lead(s) + |r| <= k < |s| ==> IsWhitespace(s[k])
    ensures r != [] ==> !IsWhitespace(r[0]) && !IsWhitespace(r[|r| - 1])
  {
    var a := Lead(s);
    s[a..LastSolid(s, a, |s|)]
  }

  /** A line is blank when it holds nothing but whitespace. */
  predicate IsBlank(line: string)
  {
    forall k :: 0 <= k < |line| ==> IsWhitespace(line[k])
  }

  /** The parser's blank test, `line.trim().is_empty()`, is the blank predicate. */
  lemma BlankIff(line: string)
    ensures Trim(line) == [] <==> IsBlank(line)
  {
    var r := Trim(line);
    if r != [] {
      assert line[Lead(line)] == r[0];
    }
  }

  /** Neither end is whitespace. */
  predicate Trimmed(s: string)
  {
    s != [] ==> !IsWhitespace(s[0]) && !IsWhitespace(s[|s| - 1])
  }

  /** Trimming leaves a trimmed string, and a trimmed string is its own trim. */
  lemma TrimmedIff(s: string)
    ensures Trimmed(Trim(s))
    ensures Trimmed(s) <==> Trim(s) == s
  {
    if Trimmed(s) && s != [] {
      assert Lead(s) == 0;
      assert LastSolid(s, 0, |s|) == |s|;
      assert s[0..|s|] == s;
    }
  }

  /** Trimming twice is trimming once. */
  lemma TrimIdempotent(s: string)
    ensures Trim(Trim(s)) == Trim(s)
  {
    TrimmedIff(Trim(s));
  }

  predicate StartsWith(s: string, prefix: string)
  {
    |prefix| <= |s| && s[..|prefix|] == prefix
  }

  // ---------------------------------------------------------------------
  // The three-line parser (src/tle_loader.rs, the loop of download_tle_data)
  // ---------------------------------------------------------------------

  /** What every stored record satisfies: a non-empty trimmed name and two
      trimmed element lines carrying their line numbers. */
  predicate WellFormed(d: TleData)
  {
    && d.name != [] && Trimmed(d.name)
    && Trimmed(d.line1) && StartsWith(d.line1, "1 ")
    && Trimmed(d.line2) && StartsWith(d.line2, "2 ")
  }

  /** The record whose name sits on line i, if two more lines follow and they
      carry the "1 " / "2 " prefixes after trimming. */
  function GroupAt(lines: seq<string>, i: nat): Option<TleData>
  {
    if i + 2 < |lines| then
      var name := Trim(lines[i]);
      var line1 := Trim(lines[i + 1]);
      var line2 := Trim(lines[i + 2]);
      if StartsWith(line1, "1 ") && StartsWith(line2, "2 ") then
        Some(TleData(line1, line2, name))
      else
        None
    else
      None
  }

  /** A name line with fewer than two lines after it yields nothing; otherwise
      the group is accepted exactly when both trimmed element lines carry
      their prefixes, and then the record is well formed and named by the
      trimmed name line. */
  lemma GroupAtFacts(lines: seq<string>, i: nat)
    ensures i + 2 >= |lines| ==> GroupAt(lines, i) == None
    ensures i + 2 < |lines| ==>
      (GroupAt(lines, i).Some? <==> StartsWith(Trim(lines[i + 1]), "1 ") && StartsWith(Trim(lines[i + 2]), "2 "))
    ensures GroupAt(lines, i).Some? && !IsBlank(lines[i]) ==>
      WellFormed(GroupAt(lines, i).value) && GroupAt(lines, i).value.name == Trim(lines[i])
  {
    if GroupAt(lines, i).Some? {
      BlankIff(lines[i]);
      TrimmedIff(lines[i]);
      TrimmedIff(lines[i + 1]);
      TrimmedIff(lines[i + 2]);
    }
  }

  /** The first non-blank line at or after i (|lines| when there is none). */
  function NextNameLine(lines: seq<string>, i: nat): (j: nat)
    requires i <= |lines|
    ensures i <= j <= |lines|
    ensures forall k :: i <= k < j ==> IsBlank(lines[k])
    ensures j < |lines| ==> !IsBlank(lines[j])
    decreases |lines| - i
  {
    if i == |lines| || !IsBlank(lines[i]) then i else NextNameLine(lines, i + 1)
  }

  /** Indices of non-blank lines, so that each can head a group. */
  predicate NameIndices(lines: seq<string>, ns: seq<nat>)
  {
    forall k :: 0 <= k < |ns| ==> ns[k] < |lines| && !IsBlank(lines[ns[k]])
  }

  lemma NameIndicesSlice(lines: seq<string>, ns: seq<nat>, lo: nat, hi: nat)
    requires NameIndices(lines, ns) && lo <= hi <= |ns|
    ensures NameIndices(lines, ns[lo..hi])
  {
    forall k | 0 <= k < hi - lo
      ensures ns[lo..hi][k] < |lines| && !IsBlank(lines[ns[lo..hi][k]])
    {
      assert ns[lo..hi][k] == ns[lo + k];
    }
  }

  /** The name lines the parser visits when its cursor starts at i. */
  function NameLines(lines: seq<string>, i: nat): (ns: seq<nat>)
    ensures forall k :: 0 <= k < |ns| ==> i <= ns[k] < |lines|
    decreases |lines| - i
  {
    if i >= |lines| then []
    else
      var j := NextNameLine(lines, i);
      if j == |lines| then [] else [j] + NameLines(lines, j + 3)
  }

  /** Every visited name line is non-blank. */
  lemma {:induction false} NameLinesHeads(lines: seq<string>, i: nat)
    ensures NameIndices(lines, NameLines(lines, i))
    decreases |lines| - i
  {
    if i < |lines| {
      var j := NextNameLine(lines, i);
      if j < |lines| {
        NameLinesHeads(lines, j + 3);
        var ns := NameLines(lines, i);
        var rest := NameLines(lines, j + 3);
        assert ns == [j] + rest;
        forall k | 0 <= k < |ns|
          ensures ns[k] < |lines| && !IsBlank(lines[ns[k]])
        {
          if k > 0 {
            assert ns[k] == rest[k - 1];
          }
        }
      }
    }
  }

  /** Blank lines are skipped only while looking for a name: every line
      before the first visited name line is blank, and so is every line after
      the last visited group. */
  lemma {:induction false} NameLinesEnds(lines: seq<string>, i: nat)
    ensures NameLines(lines, i) == [] ==> forall m :: i <= m < |lines| ==> IsBlank(lines[m])
    ensures NameLines(lines, i) != [] ==>
      forall m :: i <= m < NameLines(lines, i)[0] ==> IsBlank(lines[m])
    ensures NameLines(lines, i) != [] ==>
      forall m :: Last(NameLines(lines, i)) + 3 <= m < |lines| ==> IsBlank(lines[m])
    decreases |lines| - i
  {
    if i < |lines| {
      var j := NextNameLine(lines, i);
      if j < |lines| {
        var rest := NameLines(lines, j + 3);
        NameLinesEnds(lines, j + 3);
        assert NameLines(lines, i) == [j] + rest;
      }
    }
  }

  function Last(ns: seq<nat>): nat
    requires ns != []
  {
    ns[|ns| - 1]
  }

  /** Once a name line is taken the cursor moves on by exactly three lines,
      whether or not the group was accepted, and only blank lines lie between
      the end of one group and the next name line. */
  lemma {:induction false} NameLinesGaps(lines: seq<string>, i: nat, k: nat)
    requires 0 < k < |NameLines(lines, i)|
    ensures NameLines(lines, i)[k - 1] + 3 <= NameLines(lines, i)[k]
    ensures forall m :: NameLines(lines, i)[k - 1] + 3 <= m < NameLines(lines, i)[k] ==> IsBlank(lines[m])
    decreases |lines| - i
  {
    var j := NextNameLine(lines, i);
    var rest := NameLines(lines, j + 3);
    assert NameLines(lines, i) == [j] + rest;
    if k == 1 {
      assert rest[0] == NextNameLine(lines, j + 3);
    } else {
      NameLinesGaps(lines, j + 3, k - 1);
    }
  }

  /** The accepted records of the visited name lines, in visiting order. */
  function Records(lines: seq<string>, ns: seq<nat>): seq<TleData>
  {
    if ns == [] then []
    else
      var head := match GroupAt(lines, ns[0]) case Some(d) => [d] case None => [];
      head + Records(lines, ns[1..])
  }

  lemma {:induction false} RecordsWellFormed(lines: seq<string>, ns: seq<nat>)
    requires NameIndices(lines, ns)
    ensures forall r :: r in Records(lines, ns) ==> WellFormed(r)
    decreases |ns|
  {
    if ns != [] {
      NameIndicesSlice(lines, ns, 1, |ns|);
      RecordsWellFormed(lines, ns[1..]);
      GroupAtFacts(lines, ns[0]);
    }
  }

  /** A record is kept exactly when some visited name line heads an accepted group. */
  lemma {:induction false} RecordsExact(lines: seq<string>, ns: seq<nat>)
    ensures forall r :: r in Records(lines, ns) ==>
      exists k :: 0 <= k < |ns| && GroupAt(lines, ns[k]) == Some(r)
    ensures forall k :: 0 <= k < |ns| && GroupAt(lines, ns[k]).Some? ==>
      GroupAt(lines, ns[k]).value in Records(lines, ns)
    decreases |ns|
  {
    if ns != [] {
      var head := match GroupAt(lines, ns[0]) case Some(d) => [d] case None => [];
      var rest := Records(lines, ns[1..]);
      assert Records(lines, ns) == head + rest;
      RecordsExact(lines, ns[1..]);
      forall r | r in Records(lines, ns)
        ensures exists k :: 0 <= k < |ns| && GroupAt(lines, ns[k]) == Some(r)
      {
        if r in rest {
          var k :| 0 <= k < |ns[1..]| && GroupAt(lines, ns[1..][k]) == Some(r);
          assert ns[k + 1] == ns[1..][k];
        } else {
          assert r in head;
          assert GroupAt(lines, ns[0]) == Some(r);
        }
      }
      forall k | 0 <= k < |ns| && GroupAt(lines, ns[k]).Some?
        ensures GroupAt(lines, ns[k]).value in Records(lines, ns)
      {
        if k == 0 {
          assert head == [GroupAt(lines, ns[0]).value];
        } else {
          assert ns[k] == ns[1..][k - 1];
          assert GroupAt(lines, ns[k]).value in rest;
        }
      }
    }
  }

  /** `HashMap::insert` of each record under its name, in order: a later
      record with the same name replaces an earlier one. */
  function InsertAll(acc: map<string, TleData>, rs: seq<TleData>): map<string, TleData>
    decreases |rs|
  {
    if rs == [] then acc else InsertAll(acc[rs[0].name := rs[0]], rs[1..])
  }

  /** Every entry is stored under its own name. */
  predicate KeyedByName(m: map<string, TleData>)
  {
    forall key :: key in m ==> m[key].name == key
  }

  lemma {:induction false} InsertAllFacts(acc: map<string, TleData>, rs: seq<TleData>)
    ensures KeyedByName(acc) ==> KeyedByName(InsertAll(acc, rs))
    ensures forall key :: key in InsertAll(acc, rs) <==> key in acc || exists r :: r in rs && r.name == key
    ensures forall key :: key in InsertAll(acc, rs) ==>
      InsertAll(acc, rs)[key] in rs || (key in acc && InsertAll(acc, rs)[key] == acc[key])
    decreases |rs|
  {
    if rs != [] {
      InsertAllFacts(acc[rs[0].name := rs[0]], rs[1..]);
      assert forall r :: r in rs[1..] ==> r in rs;
      assert forall r :: r in rs ==> r == rs[0] || r in rs[1..];
    }
  }

  /** The record inserted last under a name is the one the map keeps. */
  lemma {:induction false} InsertAllLastWins(acc: map<string, TleData>, rs: seq<TleData>, k: nat)
    requires k < |rs|
    requires forall m :: k < m < |rs| ==> rs[m].name != rs[k].name
    ensures rs[k].name in InsertAll(acc, rs) && InsertAll(acc, rs)[rs[k].name] == rs[k]
    decreases |rs|
  {
    if k == 0 {
      InsertAllKeeps(acc[rs[0].name := rs[0]], rs[1..], rs[0].name);
    } else {
      InsertAllLastWins(acc[rs[0].name := rs[0]], rs[1..], k - 1);
    }
  }

  /** Records under other names leave an entry alone. */
  lemma {:induction false} InsertAllKeeps(acc: map<string, TleData>, rs: seq<TleData>, key: string)
    requires key in acc
    requires forall m :: 0 <= m < |rs| ==> rs[m].name != key
    ensures key in InsertAll(acc, rs) && InsertAll(acc, rs)[key] == acc[key]
    decreases |rs|
  {
    if rs != [] {
      InsertAllKeeps(acc[rs[0].name := rs[0]], rs[1..], key);
    }
  }

  /** The catalogue the parser builds from the lines of a response body. */
  function ParseTle(lines: seq<string>): (m: map<string, TleData>)
    ensures KeyedByName(m)
    ensures forall key :: key in m ==> WellFormed(m[key])
  {
    var rs := Records(lines, NameLines(lines, 0));
    NameLinesHeads(lines, 0);
    RecordsWellFormed(lines, NameLines(lines, 0));
    InsertAllFacts(map[], rs);
    InsertAll(map[], rs)
  }

  /** Every stored record comes from an accepted group, and every accepted
      group's name is a key. */
  lemma ParseTleExact(lines: seq<string>)
    ensures forall key :: key in ParseTle(lines) ==>
      exists j :: j in NameLines(lines, 0) && GroupAt(lines, j) == Some(ParseTle(lines)[key])
    ensures forall j :: j in NameLines(lines, 0) && GroupAt(lines, j).Some? ==>
      GroupAt(lines, j).value.name in ParseTle(lines)
  {
    var ns := NameLines(lines, 0);
    var rs := Records(lines, ns);
    InsertAllFacts(map[], rs);
    RecordsExact(lines, ns);
    forall key | key in ParseTle(lines)
      ensures exists j :: j in ns && GroupAt(lines, j) == Some(ParseTle(lines)[key])
    {
      var k :| 0 <= k < |ns| && GroupAt(lines, ns[k]) == Some(ParseTle(lines)[key]);
      assert ns[k] in ns;
    }
    forall j | j in ns && GroupAt(lines, j).Some?
      ensures GroupAt(lines, j).value.name in ParseTle(lines)
    {
      var k :| 0 <= k < |ns| && ns[k] == j;
      assert GroupAt(lines, j).value in rs;
    }
  }

  /** Inserting the record of the group at name line i, if any. */
  function InsertGroup(m: map<string, TleData>, lines: seq<string>, i: nat): map<string, TleData>
  {
    match GroupAt(lines, i)
    case Some(d) => m[d.name := d]
    case None => m
  }

  /** Inserting the records of a list of name lines is handling the first
      group and then the rest. */
  lemma InsertRecordsCons(lines: seq<string>, ns: seq<nat>, acc: map<string, TleData>)
    requires ns != []
    ensures InsertAll(acc, Records(lines, ns)) == InsertAll(InsertGroup(acc, lines, ns[0]), Records(lines, ns[1..]))
  {
    var rest := Records(lines, ns[1..]);
    match GroupAt(lines, ns[0])
    case Some(d) =>
      assert Records(lines, ns) == [d] + rest;
      assert ([d] + rest)[1..] == rest;
    case None =>
      assert Records(lines, ns) == rest;
  }

  /** Inserting the records of groups whose names all differ from key
      leaves key's entry alone. */
  lemma {:induction false} RecordsKeep(lines: seq<string>, ns: seq<nat>, acc: map<string, TleData>, key: string)
    requires key in acc
    requires forall m :: 0 <= m < |ns| && GroupAt(lines, ns[m]).Some? ==> GroupAt(lines, ns[m]).value.name != key
    ensures key in InsertAll(acc, Records(lines, ns)) && InsertAll(acc, Records(lines, ns))[key] == acc[key]
    decreases |ns|
  {
    if ns != [] {
      InsertRecordsCons(lines, ns, acc);
      var tail := ns[1..];
      forall m | 0 <= m < |tail| && GroupAt(lines, tail[m]).Some?
        ensures GroupAt(lines, tail[m]).value.name != key
      {
        assert tail[m] == ns[m + 1];
      }
      RecordsKeep(lines, tail, InsertGroup(acc, lines, ns[0]), key);
    }
  }

  lemma TailLastWins(lines: seq<string>, ns: seq<nat>, k: nat)
    requires 0 < k < |ns| && GroupAt(lines, ns[k]).Some?
    requires forall m :: k < m < |ns| && GroupAt(lines, ns[m]).Some? ==>
      GroupAt(lines, ns[m]).value.name != GroupAt(lines, ns[k]).value.name
    ensures GroupAt(lines, ns[1..][k - 1]) == GroupAt(lines, ns[k])
    ensures forall m :: k - 1 < m < |ns[1..]| && GroupAt(lines, ns[1..][m]).Some? ==>
      GroupAt(lines, ns[1..][m]).value.name != GroupAt(lines, ns[1..][k - 1]).value.name
  {
    var tail := ns[1..];
    assert tail[k - 1] == ns[k];
    forall m | k - 1 < m < |tail| && GroupAt(lines, tail[m]).Some?
      ensures GroupAt(lines, tail[m]).value.name != GroupAt(lines, tail[k - 1]).value.name
    {
      assert tail[m] == ns[m + 1];
    }
  }

  lemma {:induction false} RecordsLastWins(lines: seq<string>, ns: seq<nat>, acc: map<string, TleData>, k: nat)
    requires k < |ns| && GroupAt(lines, ns[k]).Some?
    requires forall m :: k < m < |ns| && GroupAt(lines, ns[m]).Some? ==>
      GroupAt(lines, ns[m]).value.name != GroupAt(lines, ns[k]).value.name
    ensures var d := GroupAt(lines, ns[k]).value;
      d.name in InsertAll(acc, Records(lines, ns)) && InsertAll(acc, Records(lines, ns))[d.name] == d
    decreases |ns|
  {
    InsertRecordsCons(lines, ns, acc);
    var next := InsertGroup(acc, lines, ns[0]);
    if k == 0 {
      var tail := ns[1..];
      forall m | 0 <= m < |tail| && GroupAt(lines, tail[m]).Some?
        ensures GroupAt(lines, tail[m]).value.name != GroupAt(lines, ns[0]).value.name
      {
        assert tail[m] == ns[m + 1];
      }
      RecordsKeep(lines, tail, next, GroupAt(lines, ns[0]).value.name);
    } else {
      TailLastWins(lines, ns, k);
      RecordsLastWins(lines, ns[1..], next, k - 1);
    }
  }

  /** A later accepted group with the same name overwrites an earlier one:
      the map holds the record of the last accepted group carrying that name. */
  lemma ParseTleLastWins(lines: seq<string>, k: nat)
    requires k < |NameLines(lines, 0)|
    requires GroupAt(lines, NameLines(lines, 0)[k]).Some?
    requires forall m :: k < m < |NameLines(lines, 0)| && GroupAt(lines, NameLines(lines, 0)[m]).Some? ==>
      GroupAt(lines, NameLines(lines, 0)[m]).value.name != GroupAt(lines, NameLines(lines, 0)[k]).value.name
    ensures var d := GroupAt(lines, NameLines(lines, 0)[k]).value;
      d.name in ParseTle(lines) && ParseTle(lines)[d.name] == d
  {
    RecordsLastWins(lines, NameLines(lines, 0), map[], k);
  }

  lemma {:induction false} RecordsSplit(lines: seq<string>, a: seq<nat>, b: seq<nat>)
    ensures Records(lines, a + b) == Records(lines, a) + Records(lines, b)
    decreases |a|
  {
    if a != [] {
      assert (a + b)[1..] == a[1..] + b;
      assert (a + b)[0] == a[0];
      RecordsSplit(lines, a[1..], b);
      var head := match GroupAt(lines, a[0]) case Some(d) => [d] case None => [];
      assert Records(lines, a + b) == head + Records(lines, a[1..] + b);
      assert Records(lines, a) == head + Records(lines, a[1..]);
    } else {
      assert a + b == b;
    }
  }

  lemma {:induction false} InsertAllAppend(acc: map<string, TleData>, a: seq<TleData>, b: seq<TleData>)
    ensures InsertAll(acc, a + b) == InsertAll(InsertAll(acc, a), b)
    decreases |a|
  {
    if a != [] {
      assert (a + b)[1..] == a[1..] + b;
      InsertAllAppend(acc[a[0].name := a[0]], a[1..], b);
    } else {
      assert a + b == b;
    }
  }

  /** One step of the cursor, as the loop takes it. */
  lemma NameLinesStep(lines: seq<string>, i: nat)
    requires i < |lines|
    ensures IsBlank(lines[i]) ==> NameLines(lines, i) == NameLines(lines, i + 1)
    ensures !IsBlank(lines[i]) ==> NameLines(lines, i) == [i] + NameLines(lines, i + 3)
  {
    if IsBlank(lines[i]) {
      assert NextNameLine(lines, i) == NextNameLine(lines, i + 1);
    } else {
      assert NextNameLine(lines, i) == i;
    }
  }

  /** Handling the group at a name line and moving on by three lines. */
  lemma NameLineStep(lines: seq<string>, i: nat, m: map<string, TleData>)
    requires i < |lines| && !IsBlank(lines[i])
    ensures InsertAll(m, Records(lines, NameLines(lines, i)))
         == InsertAll(InsertGroup(m, lines, i), Records(lines, NameLines(lines, i + 3)))
  {
    var rest := NameLines(lines, i + 3);
    NameLinesStep(lines, i);
    RecordsSplit(lines, [i], rest);
    var head := Records(lines, [i]);
    InsertAllAppend(m, head, Records(lines, rest));
    match GroupAt(lines, i)
    case Some(d) =>
      assert head == [d];
      assert InsertAll(m, [d]) == m[d.name := d] by {
        assert [d][1..] == [];
      }
    case None =>
      assert head == [];
  }

  /** The parsing loop of `download_tle_data`, statement by statement. */
  method ParseLines(lines: seq<string>) returns (satellites: map<string, TleData>)
    ensures satellites == ParseTle(lines)
  {
    satellites := map[];
    var i: nat := 0;
    while i < |lines|
      invariant InsertAll(satellites, Records(lines, NameLines(lines, i))) == ParseTle(lines)
      decreases |lines| - i
    {
      BlankIff(lines[i]);
      if Trim(lines[i]) == [] {
        NameLinesStep(lines, i);
        i := i + 1;
        continue;
      }
      NameLineStep(lines, i, satellites);
      var name := Trim(lines[i]);
      if i + 2 < |lines| {
        var line1 := Trim(lines[i + 1]);
        var line2 := Trim(lines[i + 2]);
        if StartsWith(line1, "1 ") && StartsWith(line2, "2 ") {
          assert GroupAt(lines, i) == Some(TleData(line1, line2, name));
          satellites := satellites[name := TleData(line1, line2, name)];
        } else {
          assert GroupAt(lines, i) == None;
        }
      }
      i := i + 3;
    }
  }

  lemma TrimLiteral(s: string)
    requires s != [] && !IsWhitespace(s[0]) && !IsWhitespace(s[|s| - 1])
    ensures Trim(s) == s
  {
    TrimmedIff(s);
  }

  const MalformedExample: seq<string> := ["SAT A", "1 x", "oops", "SAT B", "1 y", "2 z"]
  const BlankInsideExample: seq<string> := ["SAT A", "", "1 y", "2 z"]

  /** A group that fails a prefix check still consumes its three lines: the
      parser does not resynchronise on the next name-like line, so the group
      named on line 3 is the next one looked at. */
  lemma MalformedGroupSkipped()
    ensures NameLines(MalformedExample, 0) == [0, 3]
    ensures GroupAt(MalformedExample, 0) == None
    ensures GroupAt(MalformedExample, 3) == Some(TleData("1 y", "2 z", "SAT B"))
  {
    ExampleVisits(MalformedExample);
    MalformedFirstGroup();
    MalformedSecondGroup();
  }

  lemma MalformedFirstGroup()
    ensures GroupAt(MalformedExample, 0) == None
  {
    TrimLiteral("oops");
    assert "oops"[..2][0] != "2 "[0];
  }

  lemma MalformedSecondGroup()
    ensures GroupAt(MalformedExample, 3) == Some(TleData("1 y", "2 z", "SAT B"))
  {
    var lines := MalformedExample;
    assert lines[3] == "SAT B" && lines[4] == "1 y" && lines[5] == "2 z";
    assert "1 y"[..2] == "1 " && "2 z"[..2] == "2 ";
    GroupOfTrimmed(lines, 3);
  }

  /** A group whose three lines are already trimmed and carry the prefixes
      is taken verbatim. */
  lemma GroupOfTrimmed(lines: seq<string>, i: nat)
    requires i + 2 < |lines|
    requires Trimmed(lines[i]) && Trimmed(lines[i + 1]) && Trimmed(lines[i + 2])
    requires StartsWith(lines[i + 1], "1 ") && StartsWith(lines[i + 2], "2 ")
    ensures GroupAt(lines, i) == Some(TleData(lines[i + 1], lines[i + 2], lines[i]))
  {
    TrimmedIff(lines[i]);
    TrimmedIff(lines[i + 1]);
    TrimmedIff(lines[i + 2]);
  }

  /** A blank line inside a group is not skipped: it is taken as the first
      element line, the group is dropped, and the cursor lands on the last
      line, which has too few lines after it. */
  lemma BlankInsideGroupDropsIt()
    ensures NameLines(BlankInsideExample, 0) == [0, 3]
    ensures GroupAt(BlankInsideExample, 0) == None
    ensures GroupAt(BlankInsideExample, 3) == None
  {
    ExampleVisits(BlankInsideExample);
    TrimmedIff(BlankInsideExample[1]);
  }

  /** For the two examples: lines 0 and 3 are the name lines visited. */
  lemma ExampleVisits(lines: seq<string>)
    requires lines == MalformedExample || lines == BlankInsideExample
    ensures NameLines(lines, 0) == [0, 3]
  {
    assert !IsWhitespace(lines[0][0]) && !IsWhitespace(lines[3][0]);
    assert NextNameLine(lines, 3) == 3;
    assert NameLines(lines, 3) == [3];
  }

  // ---------------------------------------------------------------------
  // Cache freshness and the load policy
  // ---------------------------------------------------------------------

  /** `cache_max_age_hours` as `TleLoader::new` sets it. */
  const CacheMaxAgeHours: nat := 24

  const SecondsPerHour: nat := 3600

  /** The JSON document the cache file holds. */
  datatype TleCache = TleCache(data: map<string, TleData>, downloadedAt: int)

  /** The cache file as the filesystem presents it: its modification time in
      whole seconds relative to the Unix epoch (None when the metadata or the
      modification time cannot be read; negative when it lies before the
      epoch), and its parsed contents (None when reading or deserialising
      fails). */
  datatype CacheFile = CacheFile(modified: Option<int>, contents: Option<TleCache>)

  /** The cache location: the file, if it exists, and whether creating
      directories, writing and removing files there succeed. */
  datatype Disk = Disk(file: Option<CacheFile>, writable: bool)

  /** `now_hours.saturating_sub(mtime_hours)` on whole-hour buckets of u64 seconds. */
  function CacheAgeHours(nowSecs: nat, modifiedSecs: nat): nat
  {
    var now := nowSecs / SecondsPerHour;
    var modified := modifiedSecs / SecondsPerHour;
    if now >= modified then now - modified else 0
  }

  /** `is_cache_valid`: the file exists, its modification time is readable and
      not before the epoch, and its whole-hour age is under the maximum. */
  predicate IsCacheValid(disk: Disk, nowSecs: nat): (valid: bool)
    ensures valid ==>
      && disk.file.Some? && disk.file.value.modified.Some?
      && 0 <= disk.file.value.modified.value
      && nowSecs < disk.file.value.modified.value + CacheMaxAgeHours * SecondsPerHour
    ensures (&& disk.file.Some? && disk.file.value.modified.Some?
             && 0 <= disk.file.value.modified.value
             && nowSecs <= disk.file.value.modified.value + (CacheMaxAgeHours - 1) * SecondsPerHour) ==> valid
    ensures valid <==>
      && disk.file.Some? && disk.file.value.modified.Some?
      && 0 <= disk.file.value.modified.value
      && nowSecs < (disk.file.value.modified.value / SecondsPerHour + CacheMaxAgeHours) * SecondsPerHour
  {
    match disk.file
    case None => false
    case Some(f) =>
      match f.modified
      case None => false
      case Some(m) => m >= 0 && CacheAgeHours(nowSecs, m) < CacheMaxAgeHours
  }

  /** A fresh cache was modified less than 24 hours ago (or in the future). */
  lemma FreshIsYoung(disk: Disk, nowSecs: nat)
    requires IsCacheValid(disk, nowSecs)
    ensures disk.file.Some? && disk.file.value.modified.Some?
    ensures var m := disk.file.value.modified.value;
      0 <= m && nowSecs < m + CacheMaxAgeHours * SecondsPerHour
  {
  }

  /** A cache modified at most 23 hours ago, or with a modification time in
      the future, is fresh: the hour buckets can add at most one hour. */
  lemma YoungIsFresh(disk: Disk, nowSecs: nat)
    requires disk.file.Some? && disk.file.value.modified.Some?
    requires 0 <= disk.file.value.modified.value
    requires nowSecs <= disk.file.value.modified.value + (CacheMaxAgeHours - 1) * SecondsPerHour
    ensures IsCacheValid(disk, nowSecs)
  {
  }

  /** A cache modified 24 hours ago or earlier is stale. */
  lemma OldIsStale(disk: Disk, nowSecs: nat)
    requires disk.file.Some? && disk.file.value.modified.Some?
    requires 0 <= disk.file.value.modified.value
    requires disk.file.value.modified.value + CacheMaxAgeHours * SecondsPerHour <= nowSecs
    ensures !IsCacheValid(disk, nowSecs)
  {
  }

  /** Freshness reads the file's modification time only: the stored
      `downloaded_at`, the rest of the contents and writability play no part. */
  lemma FreshnessIgnoresContents(m: Option<int>, c1: Option<TleCache>, c2: Option<TleCache>, w1: bool, w2: bool, nowSecs: nat)
    ensures IsCacheValid(Disk(Some(CacheFile(m, c1)), w1), nowSecs)
        == IsCacheValid(Disk(Some(CacheFile(m, c2)), w2), nowSecs)
  {
  }

  /** `load_from_cache`. The text of a read or parse error is not modelled. */
  function LoadFromCache(disk: Disk): (r: Result<map<string, TleData>>)
    ensures r.Ok? <==> disk.file.Some? && disk.file.value.contents.Some?
    ensures r.Ok? ==> r.value == disk.file.value.contents.value.data
  {
    match disk.file
    case None => Err("Cache file does not exist")
    case Some(f) =>
      match f.contents
      case None => Err("cache file could not be read or parsed")
      case Some(c) => Ok(c.data)
  }

  /** `save_to_cache` at time nowSecs: the file is replaced by one stamped
      with that time, or nothing changes when the location cannot be written. */
  function SaveToCache(disk: Disk, data: map<string, TleData>, nowSecs: nat): (r: (Outcome, Disk))
    ensures r.0.Pass? <==> disk.writable
    ensures r.0.Pass? ==> LoadFromCache(r.1) == Ok(data) && IsCacheValid(r.1, nowSecs)
    ensures r.0.Fail? ==> r.1 == disk
    ensures r.1.writable == disk.writable
  {
    if disk.writable then
      (Pass, Disk(Some(CacheFile(Some(nowSecs), Some(TleCache(data, nowSecs)))), true))
    else
      (Fail("cache location is not writable"), disk)
  }

  /** `download_tle_data`: `fetch` is what the HTTP request produced, as the
      lines of the body or an error. */
  function Download(disk: Disk, fetch: Result<seq<string>>, nowSecs: nat): (r: (Result<map<string, TleData>>, Disk))
    ensures fetch.Err? ==> r == (Err(fetch.error), disk)
    ensures fetch.Ok? ==> r.0 == Ok(ParseTle(fetch.value))
    ensures fetch.Ok? && disk.writable ==> LoadFromCache(r.1) == r.0 && IsCacheValid(r.1, nowSecs)
    ensures !disk.writable ==> r.1 == disk
  {
    match fetch
    case Err(e) => (Err(e), disk)
    case Ok(lines) =>
      var data := ParseTle(lines);
      var (_, saved) := SaveToCache(disk, data, nowSecs);
      (Ok(data), saved)
  }

  /** `load_active_satellites`: the cached catalogue when the cache is fresh
      and loads, the download otherwise. */
  function LoadActiveSatellites(disk: Disk, nowSecs: nat, fetch: Result<seq<string>>): (r: (Result<map<string, TleData>>, Disk))
    ensures r.0.Ok? <==> fetch.Ok? || (IsCacheValid(disk, nowSecs) && disk.file.value.contents.Some?)
    ensures r.1 != disk ==> fetch.Ok? && disk.writable && !(IsCacheValid(disk, nowSecs) && disk.file.value.contents.Some?)
  {
    if IsCacheValid(disk, nowSecs) && LoadFromCache(disk).Ok? then
      (LoadFromCache(disk), disk)
    else
      Download(disk, fetch, nowSecs)
  }

  /** Cached data is returned, untouched and without fetching, only when the
      cache is fresh and loads; every other path returns the download. */
  lemma LoadUsesCacheOnlyWhenFresh(disk: Disk, nowSecs: nat, fetch: Result<seq<string>>)
    ensures IsCacheValid(disk, nowSecs) && disk.file.value.contents.Some? ==>
      LoadActiveSatellites(disk, nowSecs, fetch) == (Ok(disk.file.value.contents.value.data), disk)
    ensures !(IsCacheValid(disk, nowSecs) && disk.file.value.contents.Some?) ==>
      (LoadActiveSatellites(disk, nowSecs, fetch).0.Ok? <==> fetch.Ok?)
    ensures !(IsCacheValid(disk, nowSecs) && disk.file.value.contents.Some?) && fetch.Ok? ==>
      LoadActiveSatellites(disk, nowSecs, fetch).0 == Ok(ParseTle(fetch.value))
  {
  }

  /** A fetch error propagates and leaves the disk as it was. */
  lemma DownloadErrorPropagates(disk: Disk, fetch: Result<seq<string>>, nowSecs: nat)
    requires fetch.Err?
    ensures Download(disk, fetch, nowSecs) == (Err(fetch.error), disk)
  {
  }

  /** A failed cache save only warns: the parsed catalogue is still returned. */
  lemma SaveFailureIgnored(disk: Disk, lines: seq<string>, nowSecs: nat)
    requires !disk.writable
    ensures Download(disk, Ok(lines), nowSecs) == (Ok(ParseTle(lines)), disk)
  {
  }

  /** After a successful download into a writable location, a load less than
      23 hours later is served from the cache, whatever the network would
      return by then. */
  lemma CacheRoundTrip(disk: Disk, lines: seq<string>, t0: nat, t1: nat, later: Result<seq<string>>)
    requires disk.writable
    requires t0 <= t1 < t0 + (CacheMaxAgeHours - 1) * SecondsPerHour
    ensures var saved := Download(disk, Ok(lines), t0).1;
      LoadActiveSatellites(saved, t1, later) == (Ok(ParseTle(lines)), saved)
  {
    var saved := Download(disk, Ok(lines), t0).1;
    YoungIsFresh(saved, t1);
  }

  /** `clear_cache`: removes the file if there is one. */
  function ClearCache(disk: Disk): (r: (Outcome, Disk))
    ensures r.0.Pass? ==> r.1.file == None
    ensures r.0.Fail? <==> disk.file.Some? && !disk.writable
    ensures r.0.Fail? ==> r.1 == disk
    ensures r.1.writable == disk.writable
  {
    match disk.file
    case None => (Pass, disk)
    case Some(_) =>
      if disk.writable then (Pass, Disk(None, disk.writable))
      else (Fail("cache file could not be removed"), disk)
  }

  /** Clearing is idempotent: once it succeeds no file is left, a second call
      succeeds and changes nothing, and the next load downloads. */
  lemma ClearCacheIdempotent(disk: Disk, nowSecs: nat, fetch: Result<seq<string>>)
    requires ClearCache(disk).0 == Pass
    ensures ClearCache(disk).1.file == None
    ensures ClearCache(ClearCache(disk).1) == (Pass, ClearCache(disk).1)
    ensures !IsCacheValid(ClearCache(disk).1, nowSecs)
    ensures LoadActiveSatellites(ClearCache(disk).1, nowSecs, fetch) == Download(ClearCache(disk).1, fetch, nowSecs)
  {
  }
}
