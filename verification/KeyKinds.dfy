/**
 What agent_private_key_type says about a key from the names in it, whatever
 lists stand before the ones that it looks for.
 */
module KeyKinds {
  import opened Octets
  import opened Sexp
  import opened Protection
  import opened KeyStructure
  import opened UnprotectLoops
  import opened KeyTypes

  datatype NamedList = NamedList(text: bytes, name: bytes)

  function TextOf(ls: seq<NamedList>): bytes {
    if ls == [] then [] else ls[0].text + TextOf(ls[1..])
  }

  /** Lists of any contents, none of which has this name. */
  ghost predicate Without(ls: seq<NamedList>, other: bytes) {
    forall i :: 0 <= i < |ls| ==> ListSeg(ls[i].text, ls[i].name) && ls[i].name != other
  }

  lemma {:induction false} ListsPassed(ls: seq<NamedList>, other: bytes, r: bytes)
    requires Without(ls, other)
    ensures FindList(TextOf(ls) + r, other) == FindList(r, other)
  {
    hide Token, Skip, FindList, ListSeg;
    if ls == [] {
      assert TextOf(ls) + r == r;
    } else {
      var s := TextOf(ls[1..]) + r;
      assert TextOf(ls) + r == ls[0].text + s;
      OneListPassed(ls[0], other, s);
      ListsPassed(ls[1..], other, r);
    }
  }

  lemma OneListPassed(l: NamedList, other: bytes, r: bytes)
    requires ListSeg(l.text, l.name) && l.name != other
    ensures FindList(l.text + r, other) == FindList(r, other)
  {
    hide Token, Skip, Scan;
    ListSegFacts(l.text, l.name, r, 1);
  }

  /** The list that is looked for is found where it stands. */
  lemma ListIsFound(ls: seq<NamedList>, name: bytes, mode: bytes, r: bytes)
    requires Without(ls, name) && name != [] && mode != []
    ensures var s := "(" + (TokenOf(name) + (TokenOf(mode) + r)); var found := FindList(TextOf(ls) + s, name);
            found.Ok? && Token(found.value.1) == Tok(mode, r)
  {
    hide Token, Skip, TokenOf, TextOf, Without;
    var s := "(" + (TokenOf(name) + (TokenOf(mode) + r));
    ListsPassed(ls, name, s);
    assert s[1..] == TokenOf(name) + (TokenOf(mode) + r);
    TokenOfAppend(name, TokenOf(mode) + r);
    TokenOfAppend(mode, r);
  }

  lemma ProtectedIsNoOther(s: bytes)
    ensures ProtectedType(s) != Clear && ProtectedType(s) != Shadowed
    ensures Head(s) != '(' ==> ProtectedType(s) == Protected
  {
    hide Token, FindList;
  }

  /** A key whose first list has some name, with anything behind it. */
  lemma KindByName(name: bytes, r: bytes)
    requires name != []
    ensures var t := TypeOf("(" + (TokenOf(name) + r));
            && (t == Clear <==> name == "private-key")
            && (t == Shadowed <==> name == "shadowed-private-key")
            && (name != "private-key" && name != "shadowed-private-key" && name != "protected-private-key" ==> t == Unknown)
            && (name == "protected-private-key" && Head(r) != '(' ==> t == Protected)
  {
    hide Token, TokenOf, ProtectedType;
    ProtectedIsNoOther(r);
    var key := "(" + (TokenOf(name) + r);
    assert key[1..] == TokenOf(name) + r;
    TokenOfAppend(name, r);
    assert |"private-key"| == 11 && |"shadowed-private-key"| == 20 && |"protected-private-key"| == 21;
  }

  /**
   A protected key is one that needs a passphrase, unless it is in the form of
   OpenPGP and the list that says how it is protected there says "none".
   */
  lemma KindByMethod(algo: bytes, ls: seq<NamedList>, mode: bytes, r: bytes)
    requires algo != [] && mode != [] && Without(ls, "protected")
    ensures var key := "(" + (TokenOf("protected-private-key")
                       + ("(" + (TokenOf(algo) + (TextOf(ls) + ("(" + (TokenOf("protected") + (TokenOf(mode) + r)))))));
            TypeOf(key) == if mode == "openpgp-native" then NativeType(r) else Protected
  {
    hide Token, TokenOf, FindList, NativeType, TextOf, Without;
    var lists := TextOf(ls) + ("(" + (TokenOf("protected") + (TokenOf(mode) + r)));
    var inner := "(" + (TokenOf(algo) + lists);
    var key := "(" + (TokenOf("protected-private-key") + inner);
    assert key[1..] == TokenOf("protected-private-key") + inner;
    TokenOfAppend("protected-private-key", inner);
    assert inner[1..] == TokenOf(algo) + lists;
    TokenOfAppend(algo, lists);
    ListIsFound(ls, "protected", mode, r);
  }

  lemma KindOfNative(name: bytes, ls: seq<NamedList>, mode: bytes, r: bytes)
    requires name != [] && mode != [] && Without(ls, "protection")
    ensures NativeType("(" + (TokenOf(name) + (TextOf(ls) + ("(" + (TokenOf("protection") + (TokenOf(mode) + r)))))) ==
            if mode == "none" then OpenPgpNone else Protected
  {
    hide Token, TokenOf, FindList, TextOf, Without;
    var lists := TextOf(ls) + ("(" + (TokenOf("protection") + (TokenOf(mode) + r)));
    var s := "(" + (TokenOf(name) + lists);
    assert s[1..] == TokenOf(name) + lists;
    TokenOfAppend(name, lists);
    ListIsFound(ls, "protection", mode, r);
  }
}
