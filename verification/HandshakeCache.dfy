/** The store of handshake messages that feeds the transcript. */
module HandshakeCaches {
  import opened Bits
  import opened Wire

  datatype Item = Item(typ: byte, isClient: bool, epoch: uint16, messageSequence: uint16, data: seq<byte>)

  datatype Rule = Rule(typ: byte, epoch: uint16, isClient: bool, optional: bool)

  predicate Matches(c: Item, r: Rule) {
    c.typ == r.typ && c.isClient == r.isClient && c.epoch == r.epoch
  }

  /** The first item of highest number that matches the rule. */
  function Best(cache: seq<Item>, r: Rule): Option<Item> {
    if cache == [] then None
    else
      var earlier, c := Best(cache[..|cache| - 1], r), cache[|cache| - 1];
      if Matches(c, r) && (earlier.None? || earlier.value.messageSequence < c.messageSequence) then Some(c) else earlier
  }

  /** `Best` says no exactly when nothing matches; otherwise it is a match, in the cache, of highest number. */
  lemma {:induction false} BestIsHighestMatch(cache: seq<Item>, r: Rule)
    ensures Best(cache, r).None? <==> forall c :: c in cache ==> !Matches(c, r)
    ensures Best(cache, r).Some? ==> Best(cache, r).value in cache && Matches(Best(cache, r).value, r)
    ensures Best(cache, r).Some? ==>
              forall c :: c in cache && Matches(c, r) ==> c.messageSequence <= Best(cache, r).value.messageSequence
  {
    if cache != [] {
      BestIsHighestMatch(cache[..|cache| - 1], r);
      assert cache == cache[..|cache| - 1] + [cache[|cache| - 1]];
    }
  }

  function Merged(cache: seq<Item>, rules: seq<Rule>): seq<byte> {
    if rules == [] then []
    else
      Merged(cache, rules[..|rules| - 1]) +
      match Best(cache, rules[|rules| - 1])
      case None => []
      case Some(c) => c.data
  }

  // ---------------------------------------------------------------- fullPullMap

  /** Whether `Handshake.Unmarshal` accepts the bytes; `bodyParses` is the message codec of the header's type. */
  predicate Parses(data: seq<byte>, bodyParses: (byte, seq<byte>) -> bool) {
    && |data| >= HANDSHAKE_HEADER_SIZE
    && var h := DecodeHeader(data).value;
    && |data| - HANDSHAKE_HEADER_SIZE == h.length == h.fragmentLength
    && bodyParses(h.typ, data[HANDSHAKE_HEADER_SIZE..])
  }

  /** Matches are filed by message type, so the last rule of a type decides for that type. */
  function Governing(rules: seq<Rule>, typ: byte): Option<Rule> {
    if rules == [] then None
    else if rules[|rules| - 1].typ == typ then Some(rules[|rules| - 1])
    else Governing(rules[..|rules| - 1], typ)
  }

  function Chosen(cache: seq<Item>, rules: seq<Rule>, typ: byte): Option<Item> {
    match Governing(rules, typ)
    case None => None
    case Some(r) => Best(cache, r)
  }

  predicate DistinctTypes(rules: seq<Rule>) {
    forall i, j :: 0 <= i < j < |rules| ==> rules[i].typ != rules[j].typ
  }

  /** For rules of distinct types, as all callers pass, each rule gets its own best match. */
  lemma {:induction false} DistinctTypesGovernThemselves(cache: seq<Item>, rules: seq<Rule>, i: nat)
    requires DistinctTypes(rules) && i < |rules|
    ensures Chosen(cache, rules, rules[i].typ) == Best(cache, rules[i])
  {
    if i < |rules| - 1 {
      DistinctTypesGovernThemselves(cache, rules[..|rules| - 1], i);
    }
  }

  /** The types, in rule order, of the first `n` rules that got a match. */
  function Found(cache: seq<Item>, rules: seq<Rule>, n: nat): seq<byte>
    requires n <= |rules|
  {
    if n == 0 then []
    else
      var earlier := Found(cache, rules, n - 1);
      if Chosen(cache, rules, rules[n - 1].typ).Some? then earlier + [rules[n - 1].typ] else earlier
  }

  lemma {:induction false} FoundGrows(cache: seq<Item>, rules: seq<Rule>, n: nat, k: nat)
    requires n <= k <= |rules|
    ensures Found(cache, rules, n) <= Found(cache, rules, k)
  {
    if n < k {
      FoundGrows(cache, rules, n, k - 1);
    }
  }

  /** The message found for the type parses and carries the given number. */
  predicate InPlace(cache: seq<Item>, rules: seq<Rule>, typ: byte, number: nat, bodyParses: (byte, seq<byte>) -> bool) {
    && Chosen(cache, rules, typ).Some?
    && var data := Chosen(cache, rules, typ).value.data;
    && Parses(data, bodyParses)
    && DecodeHeader(data).value.messageSequence == number % 0x1_0000
  }

  /** The found messages are numbered gap-free from `startSeq`. */
  predicate Numbered(cache: seq<Item>, startSeq: nat, rules: seq<Rule>, types: seq<byte>,
                     bodyParses: (byte, seq<byte>) -> bool)
  {
    forall j :: 0 <= j < |types| ==> InPlace(cache, rules, types[j], startSeq + j, bodyParses)
  }

  /** What a successful pull promises. */
  predicate PullsFully(cache: seq<Item>, startSeq: nat, rules: seq<Rule>, bodyParses: (byte, seq<byte>) -> bool) {
    && (forall r :: r in rules && !r.optional ==> Best(cache, r).Some?)
    && Found(cache, rules, |rules|) != []
    && Numbered(cache, startSeq, rules, Found(cache, rules, |rules|), bodyParses)
  }

  lemma OutOfPlaceFails(cache: seq<Item>, startSeq: nat, rules: seq<Rule>, i: nat, bodyParses: (byte, seq<byte>) -> bool)
    requires i < |rules| && Chosen(cache, rules, rules[i].typ).Some?
    requires !InPlace(cache, rules, rules[i].typ, startSeq + |Found(cache, rules, i)|, bodyParses)
    ensures !PullsFully(cache, startSeq, rules, bodyParses)
  {
    FoundGrows(cache, rules, i + 1, |rules|);
    assert Found(cache, rules, |rules|)[|Found(cache, rules, i)|] == rules[i].typ;
  }

  class HandshakeCache {
    var cache: seq<Item>

    constructor ()
      ensures cache == []
    {
      cache := [];
    }

    method Push(data: seq<byte>, epoch: uint16, messageSequence: uint16, typ: byte, isClient: bool)
      modifies this
      ensures cache == old(cache) + [Item(typ, isClient, epoch, messageSequence, data)]
    {
      cache := cache + [Item(typ, isClient, epoch, messageSequence, data)];
    }

    method Pull(rules: seq<Rule>) returns (out: seq<Option<Item>>)
      ensures |out| == |rules|
      ensures forall i :: 0 <= i < |rules| ==> out[i] == Best(cache, rules[i])
    {
      out := [];
      for i := 0 to |rules|
        invariant |out| == i
        invariant forall k :: 0 <= k < i ==> out[k] == Best(cache, rules[k])
      {
        var best: Option<Item> := None;
        for n := 0 to |cache|
          invariant best == Best(cache[..n], rules[i])
        {
          assert cache[..n + 1][..n] == cache[..n];
          var c := cache[n];
          if Matches(c, rules[i]) {
            if best.None? {
              best := Some(c);
            } else if best.value.messageSequence < c.messageSequence {
              best := Some(c);
            }
          }
        }
        assert cache[..|cache|] == cache;
        out := out + [best];
      }
    }

    method PullAndMerge(rules: seq<Rule>) returns (merged: seq<byte>)
      ensures merged == Merged(cache, rules)
    {
      merged := [];
      var pulled := Pull(rules);
      for i := 0 to |pulled|
        invariant merged == Merged(cache, rules[..i])
      {
        assert rules[..i + 1][..i] == rules[..i];
        if pulled[i].Some? {
          merged := merged + pulled[i].value.data;
        }
      }
      assert rules[..|rules|] == rules;
    }

    /** The first loop of `fullPullMap`: file the best matches by type, and report a missing mandatory message. */
    method ChooseByType(rules: seq<Rule>) returns (chosen: map<byte, Item>, missing: bool)
      ensures missing <==> exists r :: r in rules && !r.optional && Best(cache, r).None?
      ensures !missing ==> forall t :: if t in chosen then Chosen(cache, rules, t) == Some(chosen[t])
                                       else Chosen(cache, rules, t) == None
    {
      chosen := map[];
      var pulled := Pull(rules);
      for i := 0 to |rules|
        invariant forall k :: 0 <= k < i && !rules[k].optional ==> Best(cache, rules[k]).Some?
        invariant forall t :: if t in chosen then Chosen(cache, rules[..i], t) == Some(chosen[t])
                              else Chosen(cache, rules[..i], t) == None
      {
        assert rules[..i + 1][..i] == rules[..i];
        if !rules[i].optional && pulled[i].None? {
          assert rules[i] in rules;
          return map[], true;
        }
        chosen := if pulled[i].Some? then chosen[rules[i].typ := pulled[i].value] else chosen - {rules[i].typ};
      }
      assert rules[..|rules|] == rules;
      missing := false;
    }

    /** A pull succeeds exactly when `PullsFully` holds, and then gives the chosen message of every type found. */
    method FullPullMap(startSeq: nat, rules: seq<Rule>, bodyParses: (byte, seq<byte>) -> bool)
      returns (nextSeq: nat, messages: map<byte, seq<byte>>, ok: bool)
      ensures ok <==> PullsFully(cache, startSeq, rules, bodyParses)
      ensures ok ==> nextSeq == startSeq + |Found(cache, rules, |rules|)|
      ensures ok ==> forall t :: t in messages <==> t in Found(cache, rules, |rules|)
      ensures ok ==> forall t :: t in messages ==>
                Chosen(cache, rules, t).Some? && messages[t] == Chosen(cache, rules, t).value.data
      ensures !ok ==> nextSeq == startSeq && messages == map[]
    {
      var chosen, missing := ChooseByType(rules);
      if missing {
        return startSeq, map[], false;
      }
      messages := map[];
      nextSeq := startSeq;
      ok := false;
      for i := 0 to |rules|
        invariant nextSeq == startSeq + |Found(cache, rules, i)|
        invariant ok <==> Found(cache, rules, i) != []
        invariant !ok ==> messages == map[]
        invariant Numbered(cache, startSeq, rules, Found(cache, rules, i), bodyParses)
        invariant forall t :: t in messages <==> t in Found(cache, rules, i)
        invariant forall t :: t in messages ==> t in chosen && messages[t] == chosen[t].data
      {
        var typ := rules[i].typ;
        if typ in chosen {
          var data := chosen[typ].data;
          if !Parses(data, bodyParses) || nextSeq % 0x1_0000 != DecodeHeader(data).value.messageSequence {
            OutOfPlaceFails(cache, startSeq, rules, i, bodyParses);
            return startSeq, map[], false;
          }
          assert InPlace(cache, rules, typ, nextSeq, bodyParses);
          nextSeq := nextSeq + 1;
          ok := true;
          messages := messages[typ := data];
        }
      }
    }
  }
}
