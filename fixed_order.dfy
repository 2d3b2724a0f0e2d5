/** The seven fixed identifiers in the order the fixed listing shows them,
    worked out one insertion at a time. */
module FixedOrder {
  import opened Sorting
  import opened StringOrder

  /** One step of the insertion sort: `x` goes in front of an already sorted
      `rest` whose first element it precedes. */
  lemma SortStep(x: string, tail: seq<string>, rest: seq<string>)
    requires Sort(tail, LexLe) == rest
    requires rest != [] && LexLe(x, rest[0])
    ensures Sort([x] + tail, LexLe) == [x] + rest
  {
    assert ([x] + tail)[1..] == tail;
  }

  lemma SortLastTwo()
    ensures Sort(["scr", "js"], LexLe) == ["js", "scr"]
  {
    assert ["scr", "js"][1..] == ["js"];
    assert ["js"][1..] == [];
    assert !LexLe("scr", "js");
    assert Insert("scr", [], LexLe) == ["scr"];
  }

  lemma SevenIdentifiersSorted()
    ensures Sort(["bat", "cmd", "com", "cpl", "exe", "scr", "js"], LexLe)
         == ["bat", "cmd", "com", "cpl", "exe", "js", "scr"]
  {
    SortLastTwo();
    assert LexLe("exe", "js");
    SortStep("exe", ["scr", "js"], ["js", "scr"]);
    assert LexLe("cpl", "exe");
    SortStep("cpl", ["exe", "scr", "js"], ["exe", "js", "scr"]);
    assert LexLe("com", "cpl");
    SortStep("com", ["cpl", "exe", "scr", "js"], ["cpl", "exe", "js", "scr"]);
    assert LexLe("cmd", "com");
    SortStep("cmd", ["com", "cpl", "exe", "scr", "js"], ["com", "cpl", "exe", "js", "scr"]);
    assert LexLe("bat", "cmd");
    SortStep("bat", ["cmd", "com", "cpl", "exe", "scr", "js"], ["cmd", "com", "cpl", "exe", "js", "scr"]);
  }
}
