/** Names of symbols in the bytes of a string table (unwindstack/Symbols.cpp,
    unwindstack/Memory.cpp, ReadString). */
module SymbolNames {
  import opened Wrappers
  import opened Symbols

  /** A string table: every name with a zero behind it. */
  function Packed(names: seq<string>): (r: string) {
    if names == [] then "" else names[0] + ['\0'] + Packed(names[1..])
  }

  /** What is read of a string: up to its zero, which has to be there. */
  function Terminated(s: string): (r: Option<string>) {
    if s == "" then None else if s[0] == '\0' then Some("") else
    var more := Terminated(s[1..]);
    if more.None? then None else Some([s[0]] + more.value)
  }

  /** A table of these bytes at an address. */
  function TableAt(bytes: string, at: nat): (r: Strings) {
    Strings(at, at + |bytes|, (a: nat, limit: nat) =>
      if at <= a && a - at <= |bytes| && limit <= |bytes| - (a - at)
      then Terminated(bytes[a - at..a - at + limit]) else None)
  }

  predicate NoZero(s: string) {
    forall i :: 0 <= i < |s| ==> s[i] != '\0'
  }

  lemma {:induction false} ReadBack(name: string, rest: string)
    requires NoZero(name)
    ensures Terminated(name + ['\0'] + rest) == Some(name)
  {
    var all := name + ['\0'] + rest;
    if name != "" {
      assert all[1..] == name[1..] + ['\0'] + rest;
      ReadBack(name[1..], rest);
      assert [name[0]] + name[1..] == name;
    }
  }

  lemma {:induction false} PackedFrom(names: seq<string>, i: nat)
    requires i < |names|
    ensures |Packed(names[..i])| < |Packed(names)|
    ensures Packed(names)[|Packed(names[..i])|..] == names[i] + ['\0'] + Packed(names[i + 1..])
  {
    if i == 0 {
      assert names[..0] == [];
    } else {
      var first := names[0] + ['\0'];
      PackedFrom(names[1..], i - 1);
      assert names[..i][1..] == names[1..][..i - 1] && names[1..][i..] == names[i + 1..];
      assert Packed(names) == first + Packed(names[1..]);
      assert Packed(names[..i]) == first + Packed(names[1..][..i - 1]);
    }
  }

  /** A function whose name field is where a name was packed has that name. */
  lemma {:induction false} NamesAreRead(names: seq<string>, i: nat, at: nat, s: Symbol)
    requires i < |names| && NoZero(names[i]) && s.func && s.name == |Packed(names[..i])|
    requires at + |Packed(names)| <= U64
    ensures NameIn(TableAt(Packed(names), at), s) == Some(names[i])
  {
    var bytes := Packed(names);
    PackedFrom(names, i);
    ReadBack(names[i], Packed(names[i + 1..]));
    assert bytes[s.name..s.name + (|bytes| - s.name)] == bytes[s.name..];
  }
}
