/** The tree-building part of buildMerkleTree: leaves, root and stored proofs
    (internal/service/settlement.go:330-374). */
module MerkleRows {
  import opened Wrappers
  import opened Hashing
  import opened Merkle
  import opened Settlement
  import opened Ledger
  import opened Restart
  import opened Aggregation
  import opened EpochStore

  function Names(list: seq<(string, int)>): (names: seq<string>)
    ensures |names| == |list|
  {
    seq(|list|, i requires 0 <= i < |list| => list[i].0)
  }

  lemma NamesList(list: seq<(string, int)>, amounts: map<string, int>)
    requires Enumerates(list, amounts)
    ensures IsOrder(Names(list), amounts.Keys)
  {
    var names := Names(list);
    forall r ensures r in names <==> r in amounts {
      if r in amounts {
        var i :| 0 <= i < |list| && list[i].0 == r;
        assert names[i] == r;
      }
    }
  }

  /** What the map iteration hands out: each recipient once, with its amount. */
  ghost predicate ListsAmounts(list: seq<(string, int)>, amounts: map<string, int>)
  {
    && IsOrder(Names(list), amounts.Keys)
    && forall i :: 0 <= i < |list| ==> list[i].0 in amounts && amounts[list[i].0] == list[i].1
  }

  lemma EntriesFromMap(list: seq<(string, int)>, amounts: map<string, int>)
    requires Enumerates(list, amounts)
    ensures ListsAmounts(list, amounts)
  {
    NamesList(list, amounts);
  }

  method MakeLeaves(out: Outside, list: seq<(string, int)>, ghost amounts: map<string, int>) returns (leaves: seq<Leaf>)
    requires AmountsFit(amounts) && ListsAmounts(list, amounts)
    ensures leaves == LeavesIn(out, amounts, Names(list))
  {
    leaves := [];
    for i := 0 to |list|
      invariant |leaves| == i
      invariant forall k :: 0 <= k < i ==> leaves[k] == LeafOf(out, amounts, list[k].0)
    {
      var recipient, amount := list[i].0, list[i].1;
      assert amounts[recipient] == amount;
      leaves := leaves + [Leaf(out.toAccount(recipient), amount)];
    }
  }

  /** The proof table as the rows of the recipients are added one by one. */
  ghost function SavedIn(was: map<(int, string), ProofRow>, date: int, rows: map<string, ProofRow>, names: seq<string>):
    map<(int, string), ProofRow>
  {
    if names == [] then was
    else
      var saved, r := SavedIn(was, date, rows, names[..|names| - 1]), names[|names| - 1];
      if r in rows then saved[(date, r) := rows[r]] else saved
  }

  lemma SavedStep(was: map<(int, string), ProofRow>, date: int, rows: map<string, ProofRow>, names: seq<string>, i: nat)
    requires i < |names| && names[i] in rows
    ensures SavedIn(was, date, rows, names[..i + 1])
         == SavedIn(was, date, rows, names[..i])[(date, names[i]) := rows[names[i]]]
  {
    assert names[..i + 1][..i] == names[..i];
  }

  lemma {:induction false} SavedKeys(was: map<(int, string), ProofRow>, date: int, rows: map<string, ProofRow>,
                                     names: seq<string>, r: string)
    requires (date, r) !in was && forall k :: 0 <= k < |names| ==> names[k] != r
    ensures (date, r) !in SavedIn(was, date, rows, names)
    decreases |names|
  {
    if names != [] {
      SavedKeys(was, date, rows, names[..|names| - 1], r);
    }
  }

  /** The rows of the first recipients. */
  function Chosen(rows: map<string, ProofRow>, names: seq<string>): map<string, ProofRow>
  {
    map r | r in rows && r in names :: rows[r]
  }

  lemma KeyedInsert(was: map<(int, string), ProofRow>, date: int, rows: map<string, ProofRow>, r: string, row: ProofRow)
    ensures (was + Keyed(date, rows))[(date, r) := row] == was + Keyed(date, rows[r := row])
  {
    assert Keyed(date, rows[r := row]) == Keyed(date, rows)[(date, r) := row];
  }

  lemma {:induction false} SavedIsKeyed(was: map<(int, string), ProofRow>, date: int, rows: map<string, ProofRow>,
                                        names: seq<string>)
    ensures SavedIn(was, date, rows, names) == was + Keyed(date, Chosen(rows, names))
    decreases |names|
  {
    if names == [] {
      assert Chosen(rows, names) == map[];
    } else {
      var front, r := names[..|names| - 1], names[|names| - 1];
      SavedIsKeyed(was, date, rows, front);
      assert names == front + [r];
      if r in rows {
        KeyedInsert(was, date, Chosen(rows, front), r, rows[r]);
        assert Chosen(rows, names) == Chosen(rows, front)[r := rows[r]];
      } else {
        assert Chosen(rows, names) == Chosen(rows, front);
      }
    }
  }

  ghost predicate Unrepeated(names: seq<string>)
  {
    forall i, j :: 0 <= i < j < |names| ==> names[i] != names[j]
  }

  /** The next insert finds its key unused. */
  lemma NextIsUnsaved(was: map<(int, string), ProofRow>, date: int, rows: map<string, ProofRow>, names: seq<string>,
                      i: nat)
    requires Unrepeated(names) && i < |names| && names[i] in rows && forall r :: r in rows ==> (date, r) !in was
    ensures (date, names[i]) !in SavedIn(was, date, rows, names[..i])
  {
    SavedKeys(was, date, rows, names[..i], names[i]);
  }

  /** Saving every row fills in exactly the rows. */
  lemma SavedAll(was: map<(int, string), ProofRow>, date: int, rows: map<string, ProofRow>, names: seq<string>)
    requires forall r :: r in names <==> r in rows
    ensures SavedIn(was, date, rows, names[..|names|]) == was + Keyed(date, rows)
  {
    assert names[..|names|] == names;
    SavedIsKeyed(was, date, rows, names);
    assert Chosen(rows, names) == rows;
  }

  /** The tree over the listed recipients, and the rows it gives them. */
  ghost predicate Holds(out: Outside, tree: Tree, list: seq<(string, int)>, leaves: seq<Leaf>,
                        amounts: map<string, int>, rows: map<string, ProofRow>)
    reads tree
  {
    && AmountsFit(amounts) && ListsAmounts(list, amounts) && leaves == LeavesIn(out, amounts, Names(list))
    && tree.Valid(out.keccak) && tree.leaves == leaves && rows == ProofRows(out, amounts)
  }

  /** The row of one recipient, read off the tree. */
  method ProofRowFor(out: Outside, tree: Tree, list: seq<(string, int)>, leaves: seq<Leaf>, i: nat,
                     ghost amounts: map<string, int>, ghost rows: map<string, ProofRow>)
    returns (row: ProofRow)
    requires Holds(out, tree, list, leaves, amounts, rows) && i < |list| && list[i].0 in rows && |leaves| == |list|
    ensures row == rows[list[i].0]
  {
    ghost var r, names := list[i].0, Names(list);
    LeafHashInBase(out, amounts, names, r);
    BaseIgnoresOrder(out, amounts, names, SomeOrder(amounts.Keys));
    var proof := tree.Proof(out.keccak, leaves[i]);
    assert proof.Ok?;
    var leafHash := HashLeaf(out.keccak, leaves[i]);
    row := ProofRow(list[i].1, leafHash, proof.value);
  }

  /** Stores the proof of one recipient; the insert meets no row that exists. */
  method SaveProof(store: EpochStore, out: Outside, date: int, tree: Tree, list: seq<(string, int)>, leaves: seq<Leaf>,
                   i: nat,
                   ghost amounts: map<string, int>, ghost rows: map<string, ProofRow>,
                   ghost inp: Inputs, ghost reach: Books -> bool)
    requires Closed(date, inp, reach) && reach(store.Snapshot())
    requires Holds(out, tree, list, leaves, amounts, rows) && |leaves| == |list| && i < |list|
    requires list[i].0 in rows && (date, list[i].0) !in store.proofs
    modifies store`proofs
    ensures reach(store.Snapshot()) && store.proofs == old(store.proofs)[(date, list[i].0) := rows[list[i].0]]
  {
    var row := ProofRowFor(out, tree, list, leaves, i, amounts, rows);
    var saved := store.SaveMerkleProof(date, list[i].0, row, inp, reach);
    assert saved;
  }

  /** Stores one proof per recipient, in iteration order. */
  method SaveProofs(store: EpochStore, out: Outside, date: int, tree: Tree, list: seq<(string, int)>, leaves: seq<Leaf>,
                    ghost amounts: map<string, int>, ghost rows: map<string, ProofRow>,
                    ghost inp: Inputs, ghost reach: Books -> bool)
    requires Closed(date, inp, reach) && reach(store.Snapshot())
    requires Holds(out, tree, list, leaves, amounts, rows) && |leaves| == |list|
    requires Unrepeated(Names(list)) && forall i :: 0 <= i < |list| ==> list[i].0 in rows
    requires forall r :: r in rows ==> (date, r) !in store.proofs
    modifies store`proofs
    ensures reach(store.Snapshot())
    ensures store.proofs == SavedIn(old(store.proofs), date, rows, Names(list)[..|list|])
  {
    ghost var was, names := store.proofs, Names(list);
    for i := 0 to |list|
      invariant reach(store.Snapshot())
      invariant store.proofs == SavedIn(was, date, rows, names[..i])
    {
      assert names[i] == list[i].0;
      NextIsUnsaved(was, date, rows, names, i);
      SavedStep(was, date, rows, names, i);
      SaveProof(store, out, date, tree, list, leaves, i, amounts, rows, inp, reach);
    }
  }

  lemma SomeLeaves(out: Outside, amounts: map<string, int>, names: seq<string>)
    requires AmountsFit(amounts) && IsOrder(names, amounts.Keys)
    ensures names == [] <==> amounts == map[]
    ensures AllEncodable(LeavesIn(out, amounts, names))
    ensures names != [] ==> RootFor(out, amounts) == Some(TreeRoot(out.keccak, LeavesIn(out, amounts, names)))
  {
    LeavesEncodable(out, amounts, names);
    if names != [] {
      assert names[0] in names;
      BaseIgnoresOrder(out, amounts, names, SomeOrder(amounts.Keys));
    } else {
      if amounts != map[] { OrderIsLong(amounts, names); }
    }
  }

  lemma EntryNames(out: Outside, list: seq<(string, int)>, amounts: map<string, int>)
    requires AmountsFit(amounts) && ListsAmounts(list, amounts)
    ensures Unrepeated(Names(list)) && (forall i :: 0 <= i < |list| ==> list[i].0 in ProofRows(out, amounts))
    ensures forall r :: r in Names(list) <==> r in ProofRows(out, amounts)
  {
  }

  /** The tree of a non-empty list of leaves: its root and one proof per recipient. */
  method StoreLeaves(store: EpochStore, out: Outside, date: int, list: seq<(string, int)>, leaves: seq<Leaf>,
                     ghost amounts: map<string, int>, ghost inp: Inputs, ghost reach: Books -> bool)
    requires Closed(date, inp, reach) && reach(store.Snapshot()) && date in store.epochs
    requires AmountsFit(amounts) && ListsAmounts(list, amounts) && list != []
      && leaves == LeavesIn(out, amounts, Names(list))
    requires forall r :: r in amounts ==> (date, r) !in store.proofs
    modifies store`proofs, store`epochs
    ensures reach(store.Snapshot())
    ensures store.epochs == old(store.epochs)[date := old(store.epochs)[date].(root := RootFor(out, amounts))]
    ensures store.proofs == SavedIn(old(store.proofs), date, ProofRows(out, amounts), Names(list)[..|list|])
  {
    SomeLeaves(out, amounts, Names(list));
    EntryNames(out, list, amounts);
    var built := NewTree(out.keccak, leaves);
    var tree := built.value;
    var root := tree.Root(out.keccak);
    store.SetEpochMerkleRoot(date, root, inp, reach);
    SaveProofs(store, out, date, tree, list, leaves, amounts, ProofRows(out, amounts), inp, reach);
  }

  /** Builds the tree over the recipients in any order, stores its root and one
      proof per recipient; with no recipient it leaves the epoch without a root. */
  method StoreTree(store: EpochStore, out: Outside, date: int, amounts: map<string, int>,
                   ghost inp: Inputs, ghost reach: Books -> bool)
    requires Closed(date, inp, reach) && reach(store.Snapshot())
    requires AmountsFit(amounts) && date in store.epochs && store.epochs[date].root == None
    requires forall r :: r in amounts ==> (date, r) !in store.proofs
    modifies store`proofs, store`epochs
    ensures reach(store.Snapshot())
    ensures store.epochs == old(store.epochs)[date := old(store.epochs)[date].(root := RootFor(out, amounts))]
    ensures store.proofs == old(store.proofs) + Keyed(date, ProofRows(out, amounts))
  {
    var list := ListRows(amounts);
    EntriesFromMap(list, amounts);
    var leaves := MakeLeaves(out, list, amounts);
    EntryNames(out, list, amounts);
    SavedAll(store.proofs, date, ProofRows(out, amounts), Names(list));
    if |leaves| == 0 {
      SomeLeaves(out, amounts, Names(list));
      return;
    }
    StoreLeaves(store, out, date, list, leaves, amounts, inp, reach);
  }
}
