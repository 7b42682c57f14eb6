/** Doubly linked chains of numbered nodes. */
module Links {

  const NULL := -1

  function Head(c: seq<nat>): int { if c == [] then NULL else c[0] }

  function NextOf(c: seq<nat>, j: nat): int
    requires j < |c|
  {
    if j + 1 < |c| then c[j + 1] else NULL
  }

  function PrevOf(c: seq<nat>, j: nat): int
    requires j < |c|
  {
    if j > 0 then c[j - 1] else NULL
  }
}
