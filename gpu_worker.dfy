/** The host-side bookkeeping of one device worker (core/gpu_worker.py):
    a chunk of tasks becomes an ordered active list and a key map, kernel
    hits are decoded and matched against the active list, and each matched
    pair is retired until the list is empty. */
module GpuWorker {
  import opened Wrappers
  import opened Text
  import Searcher

  /** One queued task: `(row_id, prefix, suffix, case_sensitive)`. */
  datatype Task = Task(rowId: int, prefix: string, suffix: string, caseSensitive: bool)

  /** An active pair, also the key of `task_map`: `(row_id, prefix, suffix)`. */
  datatype Pair = Pair(rowId: int, prefix: string, suffix: string)

  /** A `task_map` value: `(row_id, case_sensitive)`. */
  datatype Entry = Entry(rowId: int, caseSensitive: bool)

  /** One raw kernel output as the worker reads it: the found byte and the
      key material. */
  datatype RawOutput = RawOutput(found: byte, payload: seq<byte>)

  /** One decoded hit, `[address, private_key]`. */
  datatype Hit = Hit(address: string, privateKey: string)

  /** The store update `postgres.update(row_id, start_address,
      private_address, status='success')`. */
  datatype Update = Update(rowId: int, startAddress: string, privateAddress: string)

  /** The parameter binding `set_search_params_batch(pairs, case_sensitive)`
      issued at the top of each round: the active pairs, the batch-wide case
      flag, and what the binding hands the kernel for the prefixes, namely
      the packed prefixes of the pairs in list order and their count
      (kernel argument 6), packed as `set_search_params` packs its prefix
      list. */
  datatype Bind = Bind(pairs: seq<Pair>, caseSensitive: bool, prefixes: Searcher.Packed, prefixCount: nat)

  /** A retired pair together with the store update issued for it. */
  datatype Retirement = Retirement(pair: Pair, update: Update)

  function KeyOf(t: Task): Pair
  {
    Pair(t.rowId, t.prefix, t.suffix)
  }

  function EntryOf(t: Task): Entry
  {
    Entry(t.rowId, t.caseSensitive)
  }

  // ---------------------------------------------------------------------
  // Building the chunk state

  /** The active list right after the building loop: one key per task. */
  function ActiveOf(batch: seq<Task>): seq<Pair>
  {
    seq(|batch|, i requires 0 <= i < |batch| => KeyOf(batch[i]))
  }

  /** The `task_map` right after the building loop: each task stores its
      entry under its key, so a later task overwrites an earlier one. */
  function TaskMapOf(batch: seq<Task>): map<Pair, Entry>
  {
    if batch == [] then map[]
    else TaskMapOf(batch[..|batch| - 1])[KeyOf(batch[|batch| - 1]) := EntryOf(batch[|batch| - 1])]
  }

  /** The keys of the map are exactly the keys of the tasks, and every entry
      carries the row id of its key. */
  lemma {:induction false} TaskMapDomain(batch: seq<Task>)
    ensures forall p :: p in TaskMapOf(batch) <==> exists i :: 0 <= i < |batch| && KeyOf(batch[i]) == p
    ensures forall p :: p in TaskMapOf(batch) ==> TaskMapOf(batch)[p].rowId == p.rowId
  {
    if batch != [] {
      var init := batch[..|batch| - 1];
      TaskMapDomain(init);
      assert forall i :: 0 <= i < |init| ==> init[i] == batch[i];
      forall p | exists i :: 0 <= i < |batch| && KeyOf(batch[i]) == p
        ensures p in TaskMapOf(batch)
      {
        var i :| 0 <= i < |batch| && KeyOf(batch[i]) == p;
        if i < |init| {
          assert KeyOf(init[i]) == p;
        }
      }
    }
  }

  /** The task that a key's map entry comes from is the LAST task with that key. */
  lemma {:induction false} TaskMapLastWins(batch: seq<Task>, i: nat)
    requires i < |batch|
    requires forall j :: i < j < |batch| ==> KeyOf(batch[j]) != KeyOf(batch[i])
    ensures KeyOf(batch[i]) in TaskMapOf(batch)
    ensures TaskMapOf(batch)[KeyOf(batch[i])] == EntryOf(batch[i])
  {
    if i < |batch| - 1 {
      var init := batch[..|batch| - 1];
      assert init[i] == batch[i];
      TaskMapLastWins(init, i);
    }
  }

  /** The building loop of `multi_gpu_worker`: for each task in order, store
      its entry in `task_map` and append its key to `active_pairs`. */
  method BuildChunk(batch: seq<Task>) returns (taskMap: map<Pair, Entry>, active: seq<Pair>)
    ensures |active| == |batch|
    ensures forall i :: 0 <= i < |batch| ==> active[i] == KeyOf(batch[i])
    ensures taskMap == TaskMapOf(batch)
  {
    taskMap := map[];
    active := [];
    var n := 0;
    while n < |batch|
      invariant n <= |batch|
      invariant active == ActiveOf(batch[..n])
      invariant taskMap == TaskMapOf(batch[..n])
    {
      var t := batch[n];
      assert batch[..n + 1][..n] == batch[..n];
      taskMap := taskMap[KeyOf(t) := EntryOf(t)];
      active := active + [KeyOf(t)];
      n := n + 1;
    }
    assert batch[..n] == batch;
  }

  /** Two tasks with the same key leave two list entries but one map entry,
      and the map keeps the later task's case flag. */
  lemma DuplicateKeyExample()
    ensures var batch := [Task(7, "So", "", true), Task(7, "So", "", false)];
            |ActiveOf(batch)| == 2 && TaskMapOf(batch) == map[Pair(7, "So", "") := Entry(7, false)]
  {
    var batch := [Task(7, "So", "", true), Task(7, "So", "", false)];
    assert batch[..1] == [Task(7, "So", "", true)];
    assert batch[..1][..0] == [];
  }

  // ---------------------------------------------------------------------
  // The batch-wide case flag

  /** `any(task_map[pair][1] for pair in pairs)`: true exactly when some pair's
      map entry asks for case-sensitive matching. */
  function CaseSensitiveOf(pairs: seq<Pair>, taskMap: map<Pair, Entry>): (r: bool)
    requires forall i :: 0 <= i < |pairs| ==> pairs[i] in taskMap
    ensures r <==> exists i :: 0 <= i < |pairs| && taskMap[pairs[i]].caseSensitive
  {
    if pairs == [] then false
    else
      assert forall i :: 1 <= i < |pairs| ==> pairs[i] == pairs[1..][i - 1];
      taskMap[pairs[0]].caseSensitive || CaseSensitiveOf(pairs[1..], taskMap)
  }

  /** For a chunk whose keys are distinct, the first round's case flag is
      true exactly when some task of the chunk asked for it. */
  lemma ChunkCaseSensitivity(batch: seq<Task>)
    requires forall i, j :: 0 <= i < j < |batch| ==> KeyOf(batch[i]) != KeyOf(batch[j])
    ensures forall i :: 0 <= i < |batch| ==> ActiveOf(batch)[i] in TaskMapOf(batch)
    ensures CaseSensitiveOf(ActiveOf(batch), TaskMapOf(batch)) <==>
            exists i :: 0 <= i < |batch| && batch[i].caseSensitive
  {
    forall i | 0 <= i < |batch|
      ensures KeyOf(batch[i]) in TaskMapOf(batch) && TaskMapOf(batch)[KeyOf(batch[i])] == EntryOf(batch[i])
    {
      TaskMapLastWins(batch, i);
    }
  }

  /** With a repeated key, a case-sensitive task can be outvoted by a later
      duplicate: the flag follows the map, not the list. */
  lemma DuplicateKeyDropsCaseFlag()
    ensures var batch := [Task(7, "So", "", true), Task(7, "So", "", false)];
            !CaseSensitiveOf(ActiveOf(batch), TaskMapOf(batch))
  {
    DuplicateKeyExample();
  }

  // ---------------------------------------------------------------------
  // Matching an address against the active list

  /** `address.startswith(prefix) and address.endswith(suffix)`, compared
      exactly, whatever the batch case flag. */
  predicate Matches(address: string, p: Pair)
  {
    StartsWith(address, p.prefix) && EndsWith(address, p.suffix)
  }

  /** The first pair of the list, in list order, that the address matches. */
  function FirstMatch(active: seq<Pair>, address: string): (r: Option<Pair>)
    ensures r.None? <==> forall i :: 0 <= i < |active| ==> !Matches(address, active[i])
    ensures r.Some? ==> exists i :: 0 <= i < |active| && active[i] == r.value &&
                          Matches(address, active[i]) &&
                          forall j :: 0 <= j < i ==> !Matches(address, active[j])
  {
    if active == [] then None
    else if Matches(address, active[0]) then Some(active[0])
    else
      assert forall i :: 1 <= i < |active| ==> active[i] == active[1..][i - 1];
      FirstMatch(active[1..], address)
  }

  /** The inner `for row_id, prefix, suffix in active_pairs` search with its
      `break` on the first match. */
  method FindPair(address: string, active: seq<Pair>) returns (found: Option<Pair>)
    ensures found == FirstMatch(active, address)
  {
    found := None;
    var i := 0;
    while i < |active|
      invariant i <= |active|
      invariant FirstMatch(active, address) == FirstMatch(active[i..], address)
    {
      if Matches(address, active[i]) {
        found := Some(active[i]);
        return;
      }
      assert active[i..][1..] == active[i + 1..];
      i := i + 1;
    }
  }

  /** The matching is exact: a lower-case address does not match an
      upper-case prefix even though the batch may run case-insensitively. */
  lemma MatchIsCaseExact()
    ensures FirstMatch([Pair(1, "So", "")], "soXYZ").None?
    ensures FirstMatch([Pair(1, "So", "")], "SoXYZ") == Some(Pair(1, "So", ""))
  {
    assert "soXYZ"[..2][0] == 's';
    assert "SoXYZ"[..2] == "So";
    assert Matches("SoXYZ", Pair(1, "So", ""));
  }

  /** The position of the first element of `s` equal to `x`. */
  function IndexOf(s: seq<Pair>, x: Pair): (i: nat)
    requires x in s
    ensures i < |s| && s[i] == x && x !in s[..i]
  {
    if s[0] == x then 0
    else
      var j := IndexOf(s[1..], x);
      assert s[..j + 1] == [s[0]] + s[1..][..j];
      j + 1
  }

  /** `list.remove(x)`: drop the first element equal to `x`, keeping the
      order of the rest. */
  function RemoveFirst(s: seq<Pair>, x: Pair): (r: seq<Pair>)
    requires x in s
    ensures |r| == |s| - 1
    ensures multiset(r) + multiset{x} == multiset(s)
  {
    var i := IndexOf(s, x);
    assert s == s[..i] + [x] + s[i + 1..];
    s[..i] + s[i + 1..]
  }

  /** The removed element is the first occurrence of `x`, and everything
      before and after it stays in place. */
  lemma RemoveFirstIsFirstOccurrence(s: seq<Pair>, x: Pair)
    requires x in s
    ensures exists i :: 0 <= i < |s| && s[i] == x && x !in s[..i] && RemoveFirst(s, x) == s[..i] + s[i + 1..]
  {
    var i := IndexOf(s, x);
    assert RemoveFirst(s, x) == s[..i] + s[i + 1..];
  }

  /** Whatever is left after a removal was in the list before. */
  lemma RemoveFirstKeeps(s: seq<Pair>, x: Pair, y: Pair)
    requires x in s && y in RemoveFirst(s, x)
    ensures y in s
  {
    assert y in multiset(RemoveFirst(s, x));
  }

  // ---------------------------------------------------------------------
  // Decoding kernel outputs: get_results

  /** Python's `s[n:]`: empty once `n` reaches the length. */
  function SliceFrom(s: seq<byte>, n: nat): seq<byte>
  {
    if n < |s| then s[n..] else []
  }

  /** The outputs whose found byte is set, in input order. */
  function Kept(outputs: seq<RawOutput>): (r: seq<RawOutput>)
    ensures |r| <= |outputs|
    ensures forall k :: 0 <= k < |r| ==> r[k].found != 0 && r[k] in outputs
  {
    if outputs == [] then []
    else
      var init, last := outputs[..|outputs| - 1], outputs[|outputs| - 1];
      assert forall o :: o in init ==> o in outputs;
      Kept(init) + (if last.found != 0 then [last] else [])
  }

  /** Keeping distributes over concatenation: the filter keeps input order. */
  lemma {:induction false} KeptAppend(a: seq<RawOutput>, b: seq<RawOutput>)
    ensures Kept(a + b) == Kept(a) + Kept(b)
  {
    if b != [] {
      var init := b[..|b| - 1];
      assert (a + b)[..|a + b| - 1] == a + init;
      assert (a + b)[|a + b| - 1] == b[|b| - 1];
      KeptAppend(a, init);
    } else {
      assert a + b == a;
    }
  }

  /** Every output with its found byte set is kept. */
  lemma {:induction false} KeptComplete(outputs: seq<RawOutput>, i: nat)
    requires i < |outputs| && outputs[i].found != 0
    ensures outputs[i] in Kept(outputs)
  {
    var init := outputs[..|outputs| - 1];
    if i < |outputs| - 1 {
      assert init[i] == outputs[i];
      KeptComplete(init, i);
    }
  }

  /** One decoded hit: the address is the encoding of the key material past
      its first 32 bytes, the private key the encoding of all of it. */
  function DecodeOutput(o: RawOutput, encode: seq<byte> -> string): Hit
  {
    Hit(encode(SliceFrom(o.payload, 32)), encode(o.payload))
  }

  /** `get_results(outputs)`: one decoded hit per output whose found byte is
      set, in input order. The base58 encoder is the parameter `encode`. */
  method GetResults(outputs: seq<RawOutput>, encode: seq<byte> -> string) returns (results: seq<Hit>)
    ensures |results| == |Kept(outputs)|
    ensures forall k :: 0 <= k < |results| ==> results[k] == DecodeOutput(Kept(outputs)[k], encode)
  {
    results := [];
    var n := 0;
    while n < |outputs|
      invariant n <= |outputs|
      invariant |results| == |Kept(outputs[..n])|
      invariant forall k :: 0 <= k < |results| ==> results[k] == DecodeOutput(Kept(outputs[..n])[k], encode)
    {
      var o := outputs[n];
      assert outputs[..n + 1][..n] == outputs[..n];
      assert outputs[..n + 1][n] == o;
      if o.found != 0 {
        results := results + [DecodeOutput(o, encode)];
      }
      n := n + 1;
    }
    assert outputs[..n] == outputs;
  }

  // ---------------------------------------------------------------------
  // Reconciling one result batch

  /** The first hit of the batch that matches some active pair, with that pair. */
  function FirstRetirement(hits: seq<Hit>, active: seq<Pair>): Option<(Pair, Hit)>
  {
    if hits == [] then None
    else
      match FirstMatch(active, hits[0].address)
      case Some(p) => Some((p, hits[0]))
      case None => FirstRetirement(hits[1..], active)
  }

  /** The retirement is found at the first hit that matches an active pair,
      and there is none exactly when no hit matches. */
  lemma {:induction false} FirstRetirementIsFirst(hits: seq<Hit>, active: seq<Pair>)
    ensures FirstRetirement(hits, active).None? <==>
              forall k :: 0 <= k < |hits| ==> FirstMatch(active, hits[k].address).None?
    ensures FirstRetirement(hits, active).Some? ==>
              exists k :: 0 <= k < |hits| && FirstRetirement(hits, active).value.1 == hits[k] &&
                FirstMatch(active, hits[k].address) == Some(FirstRetirement(hits, active).value.0) &&
                forall j :: 0 <= j < k ==> FirstMatch(active, hits[j].address).None?
  {
    if hits != [] && FirstMatch(active, hits[0].address).None? {
      FirstRetirementIsFirst(hits[1..], active);
      assert forall k :: 1 <= k < |hits| ==> hits[k] == hits[1..][k - 1];
      if FirstRetirement(hits, active).Some? {
        var k :| 0 <= k < |hits[1..]| && FirstRetirement(hits, active).value.1 == hits[1..][k] &&
                 FirstMatch(active, hits[1..][k].address) == Some(FirstRetirement(hits, active).value.0) &&
                 forall j :: 0 <= j < k ==> FirstMatch(active, hits[1..][j].address).None?;
        assert hits[k + 1] == hits[1..][k];
      }
    }
  }

  /** The `for data in results` loop: the first hit that matches an active
      pair retires the first occurrence of that pair and issues its store
      update; hits that match nothing are skipped; at most one pair is
      retired per batch. */
  method Reconcile(hits: seq<Hit>, active: seq<Pair>, taskMap: map<Pair, Entry>)
    returns (remaining: seq<Pair>, retired: Option<Retirement>)
    requires forall i :: 0 <= i < |active| ==> active[i] in taskMap
    ensures FirstRetirement(hits, active).None? ==> remaining == active && retired.None?
    ensures FirstRetirement(hits, active).Some? ==>
              var (p, h) := FirstRetirement(hits, active).value;
              p in active && p in taskMap &&
              remaining == RemoveFirst(active, p) &&
              retired == Some(Retirement(p, Update(taskMap[p].rowId, h.address, h.privateKey)))
  {
    remaining, retired := active, None;
    var k := 0;
    while k < |hits|
      invariant k <= |hits|
      invariant FirstRetirement(hits, active) == FirstRetirement(hits[k..], active)
    {
      var h := hits[k];
      var found := FindPair(h.address, active);
      if found.Some? {
        var p := found.value;
        remaining := RemoveFirst(active, p);
        retired := Some(Retirement(p, Update(taskMap[p].rowId, h.address, h.privateKey)));
        return;
      }
      assert hits[k..][1..] == hits[k + 1..];
      k := k + 1;
    }
  }

  // ---------------------------------------------------------------------
  // Draining a chunk

  /** The active list after retiring `retired` one at a time, each by
      removing its first occurrence; None if some retired pair is absent. */
  function AfterRetiring(start: seq<Pair>, retired: seq<Pair>): Option<seq<Pair>>
  {
    if retired == [] then Some(start)
    else
      match AfterRetiring(start, retired[..|retired| - 1])
      case None => None
      case Some(t) =>
        var x := retired[|retired| - 1];
        if x in t then Some(RemoveFirst(t, x)) else None
  }

  /** Each retirement shrinks the list by exactly one: what is left and what
      was retired make up the starting list. */
  lemma {:induction false} AfterRetiringShrinks(start: seq<Pair>, retired: seq<Pair>, left: seq<Pair>)
    requires AfterRetiring(start, retired) == Some(left)
    ensures |left| == |start| - |retired|
    ensures multiset(left) + multiset(retired) == multiset(start)
  {
    if retired != [] {
      var init, x := retired[..|retired| - 1], retired[|retired| - 1];
      var t := AfterRetiring(start, init).value;
      AfterRetiringShrinks(start, init, t);
      assert x in t && left == RemoveFirst(t, x);
      MultisetOfSnoc(retired);
      var ml, mi, mx := multiset(left), multiset(init), multiset{x};
      assert ml + mx == multiset(t);
      assert ml + (mi + mx) == (ml + mx) + mi;
    }
  }

  /** The multiset of a non-empty list: that of all but its last element,
      plus the last element. */
  lemma MultisetOfSnoc<T>(s: seq<T>)
    requires s != []
    ensures multiset(s) == multiset(s[..|s| - 1]) + multiset{s[|s| - 1]}
  {
    assert s == s[..|s| - 1] + [s[|s| - 1]];
  }

  /** The prefixes of a list of pairs, in list order. */
  function PrefixesOf(pairs: seq<Pair>): seq<string>
  {
    seq(|pairs|, i requires 0 <= i < |pairs| => pairs[i].prefix)
  }

  /** The binding of one round for the active list `pairs`. */
  function BindOf(pairs: seq<Pair>, taskMap: map<Pair, Entry>): Bind
    requires forall i :: 0 <= i < |pairs| ==> pairs[i] in taskMap
  {
    Bind(pairs, CaseSensitiveOf(pairs, taskMap), Searcher.PackPrefixes(PrefixesOf(pairs)),
         |pairs| % Searcher.UInt32Modulus)
  }

  /** Round `k` was bound to the list left after the first `k` retirements
      from `start`, with the case flag OR-ed over that list, the prefixes of
      that list packed in order, and its length as a `uint32`. */
  ghost predicate BindOk(start: seq<Pair>, taskMap: map<Pair, Entry>, b: Bind, retired: seq<Pair>, k: nat)
    requires k <= |retired|
  {
    AfterRetiring(start, retired[..k]) == Some(b.pairs) &&
    (forall i :: 0 <= i < |b.pairs| ==> b.pairs[i] in taskMap) &&
    b.caseSensitive == CaseSensitiveOf(b.pairs, taskMap) &&
    b.prefixes == Searcher.PackPrefixes(PrefixesOf(b.pairs)) &&
    b.prefixCount == |b.pairs| % Searcher.UInt32Modulus
  }

  /** A round's packed prefixes read back, by their length array, as the
      encoded prefixes of its pairs in list order, as long as each is shorter
      than 256 bytes; there is one length byte per pair. */
  lemma BindPrefixesReadBack(start: seq<Pair>, taskMap: map<Pair, Entry>, b: Bind, retired: seq<Pair>, k: nat)
    requires k <= |retired| && BindOk(start, taskMap, b, retired, k)
    requires forall i :: 0 <= i < |b.pairs| ==> |Utf8(b.pairs[i].prefix)| < 256
    ensures |b.prefixes.lengths| == |b.pairs|
    ensures Searcher.Unpack(b.prefixes.data, b.prefixes.lengths) ==
              Some(seq(|b.pairs|, i requires 0 <= i < |b.pairs| => Utf8(b.pairs[i].prefix)))
  {
    var ps := PrefixesOf(b.pairs);
    Searcher.UnpackPackPrefixes(ps);
    assert Searcher.EncodeAll(ps) == seq(|b.pairs|, i requires 0 <= i < |b.pairs| => Utf8(b.pairs[i].prefix));
  }

  /** Every bound round is in step with the retirements. */
  ghost predicate BindsFollow(start: seq<Pair>, taskMap: map<Pair, Entry>, binds: seq<Bind>, retired: seq<Pair>)
  {
    forall k :: 0 <= k < |binds| && k <= |retired| ==> BindOk(start, taskMap, binds[k], retired, k)
  }

  /** Each store update names its retired pair's row and an address that
      really matches that pair. */
  ghost predicate UpdatesMatch(updates: seq<Update>, retired: seq<Pair>)
  {
    |updates| == |retired| &&
    forall k :: 0 <= k < |updates| ==>
      updates[k].rowId == retired[k].rowId && Matches(updates[k].startAddress, retired[k])
  }

  /** Binding the current list keeps the rounds in step with the retirements. */
  lemma BindsFollowBind(start: seq<Pair>, taskMap: map<Pair, Entry>, binds: seq<Bind>,
                        retired: seq<Pair>, active: seq<Pair>)
    requires BindsFollow(start, taskMap, binds, retired) && |binds| == |retired|
    requires AfterRetiring(start, retired) == Some(active)
    requires forall i :: 0 <= i < |active| ==> active[i] in taskMap
    ensures BindsFollow(start, taskMap, binds + [BindOf(active, taskMap)], retired)
  {
    var nb := binds + [BindOf(active, taskMap)];
    forall k | 0 <= k < |nb| && k <= |retired|
      ensures BindOk(start, taskMap, nb[k], retired, k)
    {
      if k < |binds| {
        assert nb[k] == binds[k];
      } else {
        assert retired[..k] == retired;
      }
    }
  }

  /** A further retirement leaves the earlier rounds' records valid. */
  lemma BindsFollowRetire(start: seq<Pair>, taskMap: map<Pair, Entry>, binds: seq<Bind>,
                          retired: seq<Pair>, p: Pair)
    requires BindsFollow(start, taskMap, binds, retired) && |binds| <= |retired| + 1
    ensures BindsFollow(start, taskMap, binds, retired + [p])
  {
    forall k | 0 <= k < |binds| && k <= |retired| + 1
      ensures BindOk(start, taskMap, binds[k], retired + [p], k)
    {
      assert (retired + [p])[..k] == retired[..k];
    }
  }

  /** Retiring one more pair that is present removes its first occurrence. */
  lemma AfterRetiringStep(start: seq<Pair>, retired: seq<Pair>, active: seq<Pair>, p: Pair)
    requires AfterRetiring(start, retired) == Some(active) && p in active
    ensures AfterRetiring(start, retired + [p]) == Some(RemoveFirst(active, p))
  {
    assert (retired + [p])[..|retired|] == retired;
  }

  /** The decoded hits of one dispatch, as `get_results` returns them. */
  function Decoded(outputs: seq<RawOutput>, encode: seq<byte> -> string): seq<Hit>
  {
    seq(|Kept(outputs)|, k requires 0 <= k < |Kept(outputs)| => DecodeOutput(Kept(outputs)[k], encode))
  }

  /** A dispatch retires a pair: its result is non-empty (`if result:`) and
      one of its decoded hits matches an active pair. */
  predicate Retires(active: seq<Pair>, outputs: seq<RawOutput>, encode: seq<byte> -> string)
  {
    |outputs| > 0 && FirstRetirement(Decoded(outputs, encode), active).Some?
  }

  /** A dispatch's result retires `rt`: its first matching hit matches the
      pair `rt.pair` first, and `rt.update` records that hit for its row. */
  ghost predicate RetiredBy(active: seq<Pair>, outputs: seq<RawOutput>, encode: seq<byte> -> string, rt: Retirement)
  {
    Retires(active, outputs, encode) &&
    var (p, h) := FirstRetirement(Decoded(outputs, encode), active).value;
    rt == Retirement(p, Update(p.rowId, h.address, h.privateKey))
  }

  /** A dispatch's result retires `rt`, leaving `remaining` active: the
      retired pair was active and loses its first occurrence, and the
      update carries that pair's row id and an address matching it. */
  ghost predicate RetiresWith(active: seq<Pair>, outputs: seq<RawOutput>, encode: seq<byte> -> string,
                              rt: Retirement, remaining: seq<Pair>)
  {
    rt.pair in active && remaining == RemoveFirst(active, rt.pair) &&
    rt.update.rowId == rt.pair.rowId && Matches(rt.update.startAddress, rt.pair) &&
    RetiredBy(active, outputs, encode, rt)
  }

  /** The first dispatch at or after `from` whose result retires a pair. */
  function NextRetiring(active: seq<Pair>, dispatches: seq<seq<RawOutput>>, from: nat,
                        encode: seq<byte> -> string): Option<nat>
    requires from <= |dispatches|
    decreases |dispatches| - from
  {
    if from == |dispatches| then None
    else if Retires(active, dispatches[from], encode) then Some(from)
    else NextRetiring(active, dispatches, from + 1, encode)
  }

  /** `NextRetiring` finds none exactly when no dispatch from `from` on
      retires a pair. */
  lemma {:induction false} NextRetiringNone(active: seq<Pair>, dispatches: seq<seq<RawOutput>>, from: nat,
                                            encode: seq<byte> -> string)
    requires from <= |dispatches|
    ensures NextRetiring(active, dispatches, from, encode).None? <==>
              forall d :: from <= d < |dispatches| ==> !Retires(active, dispatches[d], encode)
    decreases |dispatches| - from
  {
    if from < |dispatches| && !Retires(active, dispatches[from], encode) {
      NextRetiringNone(active, dispatches, from + 1, encode);
    }
  }

  /** What `NextRetiring` finds is the first retiring dispatch from `from` on. */
  lemma {:induction false} NextRetiringFirst(active: seq<Pair>, dispatches: seq<seq<RawOutput>>, from: nat,
                                             encode: seq<byte> -> string, d: nat)
    requires from <= |dispatches| && NextRetiring(active, dispatches, from, encode) == Some(d)
    ensures from <= d < |dispatches| && Retires(active, dispatches[d], encode)
    ensures forall j :: from <= j < d ==> !Retires(active, dispatches[j], encode)
    decreases |dispatches| - from
  {
    if from < |dispatches| && !Retires(active, dispatches[from], encode) {
      NextRetiringFirst(active, dispatches, from + 1, encode, d);
    }
  }

  /** The inner `while True` loop of one round: dispatch, decode and
      reconcile until some result retires a pair. It stops right after the
      first retiring dispatch, which it reports with its retirement; without
      one the supplied dispatches are used up and nothing changes. */
  method RunRound(active: seq<Pair>, taskMap: map<Pair, Entry>, dispatches: seq<seq<RawOutput>>,
                  used: nat, encode: seq<byte> -> string)
    returns (remaining: seq<Pair>, retired: Option<Retirement>, usedAfter: nat)
    requires used <= |dispatches|
    requires forall i :: 0 <= i < |active| ==> active[i] in taskMap
    requires forall p :: p in taskMap ==> taskMap[p].rowId == p.rowId
    ensures used <= usedAfter <= |dispatches|
    ensures used < |dispatches| ==> used < usedAfter
    ensures retired.None? ==>
              remaining == active && usedAfter == |dispatches| &&
              NextRetiring(active, dispatches, used, encode).None?
    ensures retired.Some? ==>
              NextRetiring(active, dispatches, used, encode) == Some(usedAfter - 1) &&
              RetiresWith(active, dispatches[usedAfter - 1], encode, retired.value, remaining)
  {
    remaining, retired, usedAfter := active, None, used;
    while usedAfter < |dispatches| && retired.None?
      invariant used <= usedAfter <= |dispatches|
      invariant usedAfter == used ==> retired.None?
      invariant retired.None? ==>
                  remaining == active &&
                  NextRetiring(active, dispatches, used, encode) == NextRetiring(active, dispatches, usedAfter, encode)
      invariant retired.Some? ==>
                  used < usedAfter &&
                  NextRetiring(active, dispatches, used, encode) == Some(usedAfter - 1) &&
                  RetiresWith(active, dispatches[usedAfter - 1], encode, retired.value, remaining)
    {
      var k := usedAfter;
      remaining, retired := HandleResult(active, taskMap, dispatches[k], encode);
      usedAfter := k + 1;
    }
  }

  /** One pass of the inner loop's body after a dispatch: an empty result is
      skipped; otherwise it is decoded and reconciled against the active
      pairs. */
  method HandleResult(active: seq<Pair>, taskMap: map<Pair, Entry>, result: seq<RawOutput>,
                      encode: seq<byte> -> string)
    returns (remaining: seq<Pair>, retired: Option<Retirement>)
    requires forall i :: 0 <= i < |active| ==> active[i] in taskMap
    requires forall p :: p in taskMap ==> taskMap[p].rowId == p.rowId
    ensures retired.None? <==> !Retires(active, result, encode)
    ensures retired.None? ==> remaining == active
    ensures retired.Some? ==> RetiresWith(active, result, encode, retired.value, remaining)
  {
    remaining, retired := active, None;
    if |result| > 0 {
      var hits := GetResults(result, encode);
      assert hits == Decoded(result, encode);
      remaining, retired := Reconcile(hits, active, taskMap);
      if retired.Some? {
        var (p, h) := FirstRetirement(hits, active).value;
        RetirementMatches(active, taskMap, result, encode, p, h, retired.value);
      }
    }
  }

  /** The retirement `Reconcile` reports for a dispatch is the one the
      dispatch's result calls for, and its update matches its pair. */
  lemma RetirementMatches(active: seq<Pair>, taskMap: map<Pair, Entry>, outputs: seq<RawOutput>,
                          encode: seq<byte> -> string, p: Pair, h: Hit, rt: Retirement)
    requires forall q :: q in taskMap ==> taskMap[q].rowId == q.rowId
    requires |outputs| > 0 && FirstRetirement(Decoded(outputs, encode), active) == Some((p, h))
    requires p in taskMap && rt == Retirement(p, Update(taskMap[p].rowId, h.address, h.privateKey))
    ensures rt.update.rowId == rt.pair.rowId && Matches(rt.update.startAddress, rt.pair)
    ensures RetiredBy(active, outputs, encode, rt)
  {
    var hits := Decoded(outputs, encode);
    FirstRetirementIsFirst(hits, active);
    var k :| 0 <= k < |hits| && h == hits[k] && FirstMatch(active, hits[k].address) == Some(p);
    assert Matches(h.address, p);
  }

  /** One retirement keeps the chunk's records consistent. */
  lemma RetireKeepsTrace(batch: seq<Task>, binds: seq<Bind>, retired: seq<Pair>, updates: seq<Update>,
                         active: seq<Pair>, rt: Retirement, remaining: seq<Pair>)
    requires forall i :: 0 <= i < |active| ==> active[i] in TaskMapOf(batch)
    requires AfterRetiring(ActiveOf(batch), retired) == Some(active)
    requires BindsFollow(ActiveOf(batch), TaskMapOf(batch), binds, retired) && |binds| <= |retired| + 1
    requires UpdatesMatch(updates, retired)
    requires rt.pair in active && remaining == RemoveFirst(active, rt.pair)
    requires rt.update.rowId == rt.pair.rowId && Matches(rt.update.startAddress, rt.pair)
    ensures forall i :: 0 <= i < |remaining| ==> remaining[i] in TaskMapOf(batch)
    ensures AfterRetiring(ActiveOf(batch), retired + [rt.pair]) == Some(remaining)
    ensures BindsFollow(ActiveOf(batch), TaskMapOf(batch), binds, retired + [rt.pair])
    ensures UpdatesMatch(updates + [rt.update], retired + [rt.pair])
  {
    AfterRetiringStep(ActiveOf(batch), retired, active, rt.pair);
    BindsFollowRetire(ActiveOf(batch), TaskMapOf(batch), binds, retired, rt.pair);
    forall i | 0 <= i < |remaining|
      ensures remaining[i] in TaskMapOf(batch)
    {
      RemoveFirstKeeps(active, rt.pair, remaining[i]);
    }
  }

  /** The dispatch a round starts from: the one after the previous round's
      retiring dispatch, or the first. */
  function NextFrom(rounds: seq<nat>): nat
  {
    if rounds == [] then 0 else rounds[|rounds| - 1] + 1
  }

  /** Round `k` ended at dispatch `rounds[k]`: counting from where the round
      started, that is the first dispatch whose result retires a pair from
      the list left by the earlier rounds, and it retires `retired[k]` with
      the store update `updates[k]`. */
  ghost predicate RoundOk(start: seq<Pair>, dispatches: seq<seq<RawOutput>>, encode: seq<byte> -> string,
                          retired: seq<Pair>, updates: seq<Update>, rounds: seq<nat>, k: nat)
    requires k < |rounds| == |retired| == |updates|
  {
    AfterRetiring(start, retired[..k]).Some? &&
    NextFrom(rounds[..k]) <= |dispatches| &&
    NextRetiring(AfterRetiring(start, retired[..k]).value, dispatches, NextFrom(rounds[..k]), encode) == Some(rounds[k]) &&
    rounds[k] < |dispatches| &&
    RetiredBy(AfterRetiring(start, retired[..k]).value, dispatches[rounds[k]], encode,
              Retirement(retired[k], updates[k]))
  }

  /** Every retirement so far came from the dispatch its round ended at. */
  ghost predicate RoundsFollow(start: seq<Pair>, dispatches: seq<seq<RawOutput>>, encode: seq<byte> -> string,
                               retired: seq<Pair>, updates: seq<Update>, rounds: seq<nat>)
  {
    |rounds| == |retired| == |updates| &&
    forall k :: 0 <= k < |rounds| ==> RoundOk(start, dispatches, encode, retired, updates, rounds, k)
  }

  /** A round started at `from` that ends at dispatch `d`, the first
      retiring one from there, extends the record of rounds. (The round's
      outcome is the hypothesis of the conclusion rather than a precondition,
      which keeps the callers' proof obligations small.) */
  lemma RoundsFollowStep(start: seq<Pair>, dispatches: seq<seq<RawOutput>>, encode: seq<byte> -> string,
                         retired: seq<Pair>, updates: seq<Update>, rounds: seq<nat>,
                         active: seq<Pair>, from: nat, d: nat, rt: Retirement, remaining: seq<Pair>)
    requires RoundsFollow(start, dispatches, encode, retired, updates, rounds)
    requires AfterRetiring(start, retired) == Some(active)
    requires from == NextFrom(rounds) <= d < |dispatches|
    ensures NextRetiring(active, dispatches, from, encode) == Some(d) &&
            RetiresWith(active, dispatches[d], encode, rt, remaining) ==>
              RoundsFollow(start, dispatches, encode, retired + [rt.pair], updates + [rt.update], rounds + [d])
  {
    if NextRetiring(active, dispatches, from, encode) != Some(d) || !RetiresWith(active, dispatches[d], encode, rt, remaining) {
      return;
    }
    var nr, nu, nd := retired + [rt.pair], updates + [rt.update], rounds + [d];
    forall k | 0 <= k < |nd|
      ensures RoundOk(start, dispatches, encode, nr, nu, nd, k)
    {
      if k < |rounds| {
        assert nr[..k] == retired[..k] && nd[..k] == rounds[..k];
        assert nr[k] == retired[k] && nu[k] == updates[k] && nd[k] == rounds[k];
        assert RoundOk(start, dispatches, encode, retired, updates, rounds, k);
      } else {
        assert nr[..k] == retired && nd[..k] == rounds;
      }
    }
  }

  /** The rounds end at strictly later and later dispatches, so there are no
      more retirements than dispatches used. */
  ghost predicate Increasing(rounds: seq<nat>)
  {
    (forall j, k :: 0 <= j < k < |rounds| ==> rounds[j] < rounds[k]) &&
    (forall k :: 0 <= k < |rounds| ==> rounds[k] < NextFrom(rounds)) &&
    |rounds| <= NextFrom(rounds)
  }

  /** A round ending at or after where it started keeps the rounds increasing. */
  lemma IncreasingStep(rounds: seq<nat>, d: nat)
    requires Increasing(rounds) && NextFrom(rounds) <= d
    ensures Increasing(rounds + [d])
  {
    var nd := rounds + [d];
    assert forall k :: 0 <= k < |rounds| ==> nd[k] == rounds[k];
  }

  /** The state of a chunk between rounds, after `used` dispatches: the
      map is the chunk's, every active pair is in it, the active list is the
      start minus the retired pairs, every bound round was bound to the list
      of its time, every update matches its pair, every retirement came from
      the dispatch its round ended at, and the rounds so far used the
      dispatches up to `used` (or the last round ran out of dispatches
      without a retirement). */
  ghost predicate ChunkInv(batch: seq<Task>, dispatches: seq<seq<RawOutput>>, encode: seq<byte> -> string,
                           taskMap: map<Pair, Entry>, active: seq<Pair>, binds: seq<Bind>,
                           retired: seq<Pair>, updates: seq<Update>, used: nat, rounds: seq<nat>)
  {
    used <= |dispatches| &&
    taskMap == TaskMapOf(batch) &&
    (forall i :: 0 <= i < |active| ==> active[i] in taskMap) &&
    AfterRetiring(ActiveOf(batch), retired) == Some(active) &&
    (|binds| == |retired| ||
     (|binds| == |retired| + 1 && binds[|binds| - 1].pairs == active && active != [] && used == |dispatches|)) &&
    BindsFollow(ActiveOf(batch), taskMap, binds, retired) &&
    UpdatesMatch(updates, retired) &&
    RoundsFollow(ActiveOf(batch), dispatches, encode, retired, updates, rounds) &&
    Increasing(rounds) && NextFrom(rounds) <= used &&
    (|binds| == |retired| + 1 <==> used > NextFrom(rounds)) &&
    (used == NextFrom(rounds) ||
     (active != [] && used == |dispatches| && NextRetiring(active, dispatches, NextFrom(rounds), encode).None?))
  }

  /** A round that binds the active list and ends at its first retiring
      dispatch, `usedAfter - 1`, keeps the chunk state, with one pair fewer. */
  lemma ChunkRetire(batch: seq<Task>, dispatches: seq<seq<RawOutput>>, encode: seq<byte> -> string,
                    taskMap: map<Pair, Entry>, active: seq<Pair>, binds: seq<Bind>,
                    retired: seq<Pair>, updates: seq<Update>, used: nat, rounds: seq<nat>,
                    remaining: seq<Pair>, rt: Retirement, usedAfter: nat)
    requires ChunkInv(batch, dispatches, encode, taskMap, active, binds, retired, updates, used, rounds)
    requires active != [] && used < usedAfter <= |dispatches|
    ensures NextRetiring(active, dispatches, used, encode) == Some(usedAfter - 1) &&
            RetiresWith(active, dispatches[usedAfter - 1], encode, rt, remaining) ==>
              |remaining| < |active| &&
              ChunkInv(batch, dispatches, encode, taskMap, remaining, binds + [BindOf(active, taskMap)],
                       retired + [rt.pair], updates + [rt.update], usedAfter, rounds + [usedAfter - 1])
  {
    var d: nat := usedAfter - 1;
    if NextRetiring(active, dispatches, used, encode) != Some(d) || !RetiresWith(active, dispatches[d], encode, rt, remaining) {
      return;
    }
    var start := ActiveOf(batch);
    BindsFollowBind(start, taskMap, binds, retired, active);
    var nb := binds + [BindOf(active, taskMap)];
    RoundsFollowStep(start, dispatches, encode, retired, updates, rounds, active, used, d, rt, remaining);
    IncreasingStep(rounds, d);
    RetireKeepsTrace(batch, nb, retired, updates, active, rt, remaining);
  }

  /** A round that binds the active list and finds no retiring dispatch
      before the dispatches run out keeps the chunk state. */
  lemma ChunkExhausted(batch: seq<Task>, dispatches: seq<seq<RawOutput>>, encode: seq<byte> -> string,
                       taskMap: map<Pair, Entry>, active: seq<Pair>, binds: seq<Bind>,
                       retired: seq<Pair>, updates: seq<Update>, used: nat, rounds: seq<nat>)
    requires ChunkInv(batch, dispatches, encode, taskMap, active, binds, retired, updates, used, rounds)
    requires active != [] && used < |dispatches|
    requires NextRetiring(active, dispatches, used, encode).None?
    ensures ChunkInv(batch, dispatches, encode, taskMap, active, binds + [BindOf(active, taskMap)],
                     retired, updates, |dispatches|, rounds)
  {
    BindsFollowBind(ActiveOf(batch), taskMap, binds, retired, active);
  }

  /** What `multi_gpu_worker` does with one chunk, with the kernel's answers
      given as `dispatches` (one list of raw outputs per `find` call). Each
      round binds the active pairs with the batch-wide case flag, then
      dispatches until a result retires a pair; the chunk ends when the list
      is empty. The model stops early only if the supplied dispatches run
      out. The ghost `rounds` names the dispatch each retirement came from. */
  method DrainChunk(batch: seq<Task>, dispatches: seq<seq<RawOutput>>, encode: seq<byte> -> string)
    returns (active: seq<Pair>, binds: seq<Bind>, retired: seq<Pair>, updates: seq<Update>, used: nat,
             ghost rounds: seq<nat>)
    ensures used <= |dispatches|
    ensures active == [] || used == |dispatches|
    ensures RoundsFollow(ActiveOf(batch), dispatches, encode, retired, updates, rounds)
    ensures Increasing(rounds) && NextFrom(rounds) <= used
    ensures |retired| <= used
    ensures active == [] ==> used == NextFrom(rounds)
    ensures active != [] ==> NextRetiring(active, dispatches, NextFrom(rounds), encode).None?
    ensures AfterRetiring(ActiveOf(batch), retired) == Some(active)
    ensures |retired| <= |binds| <= |retired| + 1
    ensures |binds| == |retired| + 1 ==> binds[|binds| - 1].pairs == active && active != []
    ensures |binds| == |retired| + 1 <==> active != [] && NextFrom(rounds) < |dispatches|
    ensures BindsFollow(ActiveOf(batch), TaskMapOf(batch), binds, retired)
    ensures UpdatesMatch(updates, retired)
  {
    var taskMap;
    taskMap, active := BuildChunk(batch);
    TaskMapDomain(batch);
    assert active == ActiveOf(batch);
    assert forall i :: 0 <= i < |active| ==> KeyOf(batch[i]) == active[i];
    binds, retired, updates, used, rounds := [], [], [], 0, [];
    while active != [] && used < |dispatches|
      invariant ChunkInv(batch, dispatches, encode, taskMap, active, binds, retired, updates, used, rounds)
      decreases |active|, |dispatches| - used
    {
      var bind := BindOf(active, taskMap);
      var remaining, retirement, next := RunRound(active, taskMap, dispatches, used, encode);
      if retirement.Some? {
        ChunkRetire(batch, dispatches, encode, taskMap, active, binds, retired, updates, used, rounds,
                    remaining, retirement.value, next);
        active, binds, retired, updates, used, rounds :=
          remaining, binds + [bind], retired + [retirement.value.pair], updates + [retirement.value.update],
          next, rounds + [next - 1];
      } else {
        ChunkExhausted(batch, dispatches, encode, taskMap, active, binds, retired, updates, used, rounds);
        binds, used := binds + [bind], next;
      }
    }
    assert NextFrom(rounds) == |dispatches| ==> NextRetiring(active, dispatches, NextFrom(rounds), encode).None?;
  }

  /** A stand-in encoder for the scenario below. */
  function ScenarioEncode(b: seq<byte>): string
  {
    if |b| == 0 then "" else "SoXYZ"
  }

  function ScenarioActive(): seq<Pair>
  {
    [Pair(1, "So", ""), Pair(2, "xy", "99")]
  }

  function ScenarioDispatches(): seq<seq<RawOutput>>
  {
    [[], [RawOutput(0, seq(64, i => 1))], [RawOutput(1, seq(64, i => 1))]]
  }

  /** In the scenario only the third dispatch carries a hit, and the hit
      matches the first pair. */
  lemma ScenarioHits()
    ensures !Retires(ScenarioActive(), ScenarioDispatches()[0], ScenarioEncode)
    ensures !Retires(ScenarioActive(), ScenarioDispatches()[1], ScenarioEncode)
    ensures Retires(ScenarioActive(), ScenarioDispatches()[2], ScenarioEncode)
    ensures FirstRetirement(Decoded(ScenarioDispatches()[2], ScenarioEncode), ScenarioActive()).value.0 == Pair(1, "So", "")
  {
    var d: seq<seq<RawOutput>> := ScenarioDispatches();
    assert d[1][..0] == [] && d[2][..0] == [];
    assert Kept(d[1]) == [];
    assert Kept(d[2]) == [d[2][0]];
    assert SliceFrom(d[2][0].payload, 32) != [];
    assert Decoded(d[2], ScenarioEncode) == [Hit("SoXYZ", "SoXYZ")];
    assert Matches("SoXYZ", Pair(1, "So", ""));
  }

  /** The third dispatch is the only one of the scenario that retires a pair. */
  lemma ScenarioOnlyThirdRetires(k: nat)
    requires k < 3 && Retires(ScenarioActive(), ScenarioDispatches()[k], ScenarioEncode)
    ensures k == 2
  {
    ScenarioHits();
    assert k == 0 || k == 1 || k == 2;
  }

  /** A two-pair chunk whose kernel answers nothing, then an unflagged
      output, then a hit for the first pair's prefix: the third dispatch
      retires row 1 and leaves row 2 active. */
  method ScenarioThirdDispatchRetiresFirst() returns (remaining: seq<Pair>, retired: Option<Retirement>, used: nat)
    ensures used == 3
    ensures remaining == [Pair(2, "xy", "99")]
    ensures retired.Some? && retired.value.pair == Pair(1, "So", "") && retired.value.update.rowId == 1
  {
    var batch := [Task(1, "So", "", false), Task(2, "xy", "99", false)];
    var taskMap, active := BuildChunk(batch);
    TaskMapDomain(batch);
    assert active == ScenarioActive();
    ScenarioHits();
    remaining, retired, used := RunRound(active, taskMap, ScenarioDispatches(), 0, ScenarioEncode);
    assert retired.Some?;
    ScenarioOnlyThirdRetires(used - 1);
    assert RemoveFirst(active, Pair(1, "So", "")) == [Pair(2, "xy", "99")];
  }
}
