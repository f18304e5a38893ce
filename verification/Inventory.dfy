/** The bounded directory walks (src/fs_safety/unix.rs:679-747,
    src/fs_safety/windows.rs:972-1006, 506-522) over a snapshot of a tree. */
module Inventory {
  import opened Numbers
  import opened Outcomes

  const U64_MAX := 0xFFFF_FFFF_FFFF_FFFF
  const MAX_OPEN_DIRECTORIES := 128

  /** `Other` is any symbolic link, reparse point, device, socket or pipe. */
  datatype Node = File(size: nat, links: nat) | Directory(size: nat, children: seq<Node>) | Other

  datatype Limits = Limits(maxEntries: nat, maxTotalBytes: nat)

  datatype Totals = Totals(entries: nat, bytes: nat)

  datatype InventoryError = BudgetExceeded | UnsafeFileType | MultipleLinks

  /** Counters are `usize` and `u64`. */
  ghost predicate WordLimits(l: Limits) { l.maxEntries <= U64_MAX && l.maxTotalBytes <= U64_MAX }

  // ---------- Tree measures ----------

  function Below(n: Node): seq<Node> { if n.Directory? then n.children else [] }

  function SizeOf(n: Node): nat { if n.Other? then 0 else n.size }

  function Entries(nodes: seq<Node>): nat {
    if nodes == [] then 0
    else 1 + (if nodes[0].Directory? then Entries(nodes[0].children) else 0) + Entries(nodes[1..])
  }

  function Bytes(nodes: seq<Node>): nat {
    if nodes == [] then 0
    else SizeOf(nodes[0]) + (if nodes[0].Directory? then Bytes(nodes[0].children) else 0) + Bytes(nodes[1..])
  }

  predicate Allowed(n: Node) { n.Directory? || (n.File? && n.links == 1) }

  predicate AllAllowed(nodes: seq<Node>) {
    nodes == []
    || (&& Allowed(nodes[0]) && (nodes[0].Directory? ==> AllAllowed(nodes[0].children))
        && AllAllowed(nodes[1..]))
  }

  /** How many directories lie inside one another, at most. */
  function Nesting(nodes: seq<Node>): nat {
    if nodes == [] then 0
    else Max(if nodes[0].Directory? then 1 + Nesting(nodes[0].children) else 0, Nesting(nodes[1..]))
  }

  // ---------- The same measures over the work still to do ----------

  function EntriesLeft(lists: seq<seq<Node>>): nat {
    if lists == [] then 0 else EntriesLeft(lists[..|lists| - 1]) + Entries(lists[|lists| - 1])
  }

  function BytesLeft(lists: seq<seq<Node>>): nat {
    if lists == [] then 0 else BytesLeft(lists[..|lists| - 1]) + Bytes(lists[|lists| - 1])
  }

  ghost predicate AllowedLeft(lists: seq<seq<Node>>) { forall i :: 0 <= i < |lists| ==> AllAllowed(lists[i]) }

  ghost predicate FitsOpen(stack: seq<seq<Node>>) {
    forall i :: 0 <= i < |stack| ==> i + 1 + Nesting(stack[i]) <= MAX_OPEN_DIRECTORIES
  }

  lemma LeftSnoc(lists: seq<seq<Node>>, nodes: seq<Node>)
    ensures EntriesLeft(lists + [nodes]) == EntriesLeft(lists) + Entries(nodes)
    ensures BytesLeft(lists + [nodes]) == BytesLeft(lists) + Bytes(nodes)
  {
    assert (lists + [nodes])[..|lists|] == lists;
  }

  lemma LeftEmpty(lists: seq<seq<Node>>)
    requires lists != [] && lists[|lists| - 1] == []
    ensures EntriesLeft(lists) == EntriesLeft(lists[..|lists| - 1])
    ensures BytesLeft(lists) == BytesLeft(lists[..|lists| - 1])
    ensures AllowedLeft(lists) <==> AllowedLeft(lists[..|lists| - 1])
    ensures |lists| <= MAX_OPEN_DIRECTORIES ==> (FitsOpen(lists) <==> FitsOpen(lists[..|lists| - 1]))
  {
    hide Entries, Bytes, AllAllowed, AllowedLeft, FitsOpen, Nesting;
    var front := lists[..|lists| - 1];
    assert lists == front + [[]];
    NothingLeft([]);
    AllowedSnoc(front, []);
    FitsSnoc(front, []);
  }

  /** Reading one entry of the last list leaves the rest of that list and what is below the entry. */
  lemma LeftRead(front: seq<seq<Node>>, nodes: seq<Node>)
    requires nodes != []
    ensures EntriesLeft(front + [nodes]) == EntriesLeft(front + [nodes[1..]] + [Below(nodes[0])]) + 1
    ensures BytesLeft(front + [nodes]) == BytesLeft(front + [nodes[1..]] + [Below(nodes[0])]) + SizeOf(nodes[0])
    ensures EntriesLeft(front + [nodes[1..]] + [[]]) == EntriesLeft(front + [nodes[1..]])
    ensures BytesLeft(front + [nodes[1..]] + [[]]) == BytesLeft(front + [nodes[1..]])
  {
    hide Entries, Bytes;
    LeftSnoc(front, nodes);
    LeftSnoc(front, nodes[1..]);
    LeftSnoc(front + [nodes[1..]], Below(nodes[0]));
    LeftSnoc(front + [nodes[1..]], []);
    ReadMeasures(nodes);
  }

  lemma ReadMeasures(nodes: seq<Node>)
    requires nodes != []
    ensures Entries([]) == Bytes([]) == 0
    ensures Entries(nodes) == 1 + Entries(Below(nodes[0])) + Entries(nodes[1..])
    ensures Bytes(nodes) == SizeOf(nodes[0]) + Bytes(Below(nodes[0])) + Bytes(nodes[1..])
  {
  }

  lemma AllowedMeasure(nodes: seq<Node>)
    requires nodes != []
    ensures AllAllowed(nodes) <==> Allowed(nodes[0]) && AllAllowed(Below(nodes[0])) && AllAllowed(nodes[1..])
    ensures AllAllowed([])
  {
  }

  lemma NothingLeft(nodes: seq<Node>)
    requires nodes == []
    ensures Entries(nodes) == Bytes(nodes) == Nesting(nodes) == 0 && AllAllowed(nodes)
  {
  }

  lemma AllowedRead(front: seq<seq<Node>>, nodes: seq<Node>)
    requires nodes != []
    ensures AllowedLeft(front + [nodes]) <==> Allowed(nodes[0]) && AllowedLeft(front + [nodes[1..]] + [Below(nodes[0])])
    ensures AllowedLeft(front + [nodes[1..]] + [[]]) <==> AllowedLeft(front + [nodes[1..]])
  {
    AllowedSnoc(front, nodes);
    AllowedSnoc(front, nodes[1..]);
    AllowedSnoc(front + [nodes[1..]], Below(nodes[0]));
    AllowedSnoc(front + [nodes[1..]], []);
  }

  lemma AllowedSnoc(lists: seq<seq<Node>>, nodes: seq<Node>)
    ensures AllowedLeft(lists + [nodes]) <==> AllowedLeft(lists) && AllAllowed(nodes)
  {
    if AllowedLeft(lists + [nodes]) {
      assert forall i :: 0 <= i < |lists| ==> (lists + [nodes])[i] == lists[i];
      assert (lists + [nodes])[|lists|] == nodes;
    }
  }

  lemma FitsSnoc(stack: seq<seq<Node>>, nodes: seq<Node>)
    ensures FitsOpen(stack + [nodes]) <==> FitsOpen(stack) && |stack| + 1 + Nesting(nodes) <= MAX_OPEN_DIRECTORIES
  {
    if FitsOpen(stack + [nodes]) {
      assert forall i :: 0 <= i < |stack| ==> (stack + [nodes])[i] == stack[i];
      assert (stack + [nodes])[|stack|] == nodes;
    }
  }

  lemma FitsRead(front: seq<seq<Node>>, nodes: seq<Node>)
    requires nodes != []
    ensures !nodes[0].Directory? ==> (FitsOpen(front + [nodes]) <==> FitsOpen(front + [nodes[1..]]))
    ensures nodes[0].Directory? ==>
              (FitsOpen(front + [nodes]) <==> FitsOpen(front + [nodes[1..]] + [nodes[0].children]))
  {
    FitsSnoc(front, nodes);
    FitsSnoc(front, nodes[1..]);
    if nodes[0].Directory? {
      FitsSnoc(front + [nodes[1..]], nodes[0].children);
    }
  }

  lemma StartMeasures(root: seq<Node>)
    ensures EntriesLeft([root]) == Entries(root) && BytesLeft([root]) == Bytes(root)
    ensures AllowedLeft([root]) <==> AllAllowed(root)
    ensures FitsOpen([root]) <==> 1 + Nesting(root) <= MAX_OPEN_DIRECTORIES
  {
    LeftSnoc([], root);
    AllowedSnoc([], root);
    FitsSnoc([], root);
    assert [] + [root] == [root];
  }

  lemma EndMeasures()
    ensures EntriesLeft([]) == BytesLeft([]) == 0 && AllowedLeft([]) && FitsOpen([])
  {
  }

  ghost predicate Accepts(root: seq<Node>, limits: Limits) {
    Entries(root) <= limits.maxEntries && Bytes(root) <= limits.maxTotalBytes && AllAllowed(root)
  }

  /** The explicit-stack walk. Succeeds exactly on a tree of directories and
      single-linked files within both budgets that never needs a 129th open directory. */
  method UnixInventory(root: seq<Node>, limits: Limits) returns (r: Result<Totals, InventoryError>)
    requires WordLimits(limits)
    ensures r.Ok? <==> Accepts(root, limits) && 1 + Nesting(root) <= MAX_OPEN_DIRECTORIES
    ensures r.Ok? ==> r.value == Totals(Entries(root), Bytes(root))
  {
    hide Entries, Bytes, AllAllowed, Nesting, EntriesLeft, BytesLeft, AllowedLeft, FitsOpen;
    var stack := [root];
    var entries, bytes := 0, 0;
    StartMeasures(root);
    while stack != []
      invariant entries + EntriesLeft(stack) == Entries(root) && bytes + BytesLeft(stack) == Bytes(root)
      invariant entries <= limits.maxEntries && bytes <= limits.maxTotalBytes
      invariant AllowedLeft(stack) <==> AllAllowed(root)
      invariant |stack| <= MAX_OPEN_DIRECTORIES
      invariant FitsOpen(stack) <==> 1 + Nesting(root) <= MAX_OPEN_DIRECTORIES
      decreases 2 * EntriesLeft(stack) + |stack|
    {
      var parents, current := stack[..|stack| - 1], stack[|stack| - 1];
      assert stack == parents + [current];
      if current == [] {
        LeftEmpty(stack);
        stack := parents;
        continue;
      }
      var entry := current[0];
      LeftRead(parents, current);
      AllowedRead(parents, current);
      FitsRead(parents, current);
      stack := parents + [current[1..]];
      if entries + 1 > U64_MAX { return Err(BudgetExceeded); }
      entries := entries + 1;
      if entries > limits.maxEntries { return Err(BudgetExceeded); }
      if entry.Other? { return Err(UnsafeFileType); }
      if entry.File? && entry.links != 1 { return Err(MultipleLinks); }
      if bytes + entry.size > U64_MAX { return Err(BudgetExceeded); }
      bytes := bytes + entry.size;
      if bytes > limits.maxTotalBytes { return Err(BudgetExceeded); }
      if entry.Directory? {
        if |stack| >= MAX_OPEN_DIRECTORIES {
          FitsSnoc(stack, entry.children);
          return Err(BudgetExceeded);
        }
        stack := stack + [entry.children];
      }
    }
    EndMeasures();
    return Ok(Totals(entries, bytes));
  }

  /** The worklist walk: the same verdict and totals without the nesting limit. */
  method WindowsInventory(root: seq<Node>, limits: Limits) returns (r: Result<Totals, InventoryError>)
    requires WordLimits(limits)
    ensures r.Ok? <==> Accepts(root, limits)
    ensures r.Ok? ==> r.value == Totals(Entries(root), Bytes(root))
  {
    hide Entries, Bytes, AllAllowed, Nesting, EntriesLeft, BytesLeft, AllowedLeft;
    var pending := [root];
    var entries, bytes := 0, 0;
    StartMeasures(root);
    while pending != []
      invariant entries + EntriesLeft(pending) == Entries(root) && bytes + BytesLeft(pending) == Bytes(root)
      invariant entries <= limits.maxEntries && bytes <= limits.maxTotalBytes
      invariant AllowedLeft(pending) <==> AllAllowed(root)
      decreases EntriesLeft(pending) + |pending|
    {
      ghost var work := EntriesLeft(pending) + |pending|;
      var directory := pending[|pending| - 1];
      assert pending == pending[..|pending| - 1] + [directory];
      pending := pending[..|pending| - 1];
      LeftSnoc(pending, directory);
      AllowedSnoc(pending, directory);
      var i := 0;
      assert directory[0..] == directory;
      while i < |directory|
        invariant 0 <= i <= |directory|
        invariant entries + EntriesLeft(pending) + Entries(directory[i..]) == Entries(root)
        invariant bytes + BytesLeft(pending) + Bytes(directory[i..]) == Bytes(root)
        invariant EntriesLeft(pending) + Entries(directory[i..]) + |pending| < work
        invariant entries <= limits.maxEntries && bytes <= limits.maxTotalBytes
        invariant AllowedLeft(pending) && AllAllowed(directory[i..]) <==> AllAllowed(root)
      {
        var entry := directory[i];
        assert directory[i..][1..] == directory[i + 1..];
        ReadMeasures(directory[i..]);
        AllowedMeasure(directory[i..]);
        if entry.Other? { return Err(UnsafeFileType); }
        if entry.File? && entry.links != 1 { return Err(MultipleLinks); }
        if entries + 1 > U64_MAX || bytes + entry.size > U64_MAX { return Err(BudgetExceeded); }
        entries, bytes := entries + 1, bytes + entry.size;
        if entries > limits.maxEntries || bytes > limits.maxTotalBytes { return Err(BudgetExceeded); }
        if entry.Directory? {
          LeftSnoc(pending, entry.children);
          AllowedSnoc(pending, entry.children);
          pending := pending + [entry.children];
        }
        i := i + 1;
      }
      NothingLeft(directory[i..]);
    }
    EndMeasures();
    return Ok(Totals(entries, bytes));
  }
}
