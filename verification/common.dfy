/** Helpers shared by modules that have nothing else in common. */
module Common {

  function Min(a: nat, b: nat): nat { if a < b then a else b }

  function SetOf(names: seq<string>): set<string> { set n | n in names }
}
