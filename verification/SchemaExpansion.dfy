/** Expanding schema references inline: always terminating, and faithful to unbounded inlining. */
module SchemaExpansion {
  import opened Bytes

  /** A JSON value; an object lists its members in order. */
  datatype Json = Text(text: string) | Scalar(number: int) | List(items: seq<Json>) | Object(members: seq<Member>)
  datatype Member = Member(key: string, value: Json)

  /** Where a reference leads: the value found and the document it is read against. */
  datatype Target = Target(contents: Json, document: string)

  /** Lookup of a reference against a document; anything else is unresolvable. */
  type Registry = map<(string, string), Target>

  const REF := "$ref"

  predicate HasRef(members: seq<Member>)
  {
    exists i :: 0 <= i < |members| && members[i].key == REF
  }

  /** The reference a lone `$ref` object holds. */
  function Reference(members: seq<Member>): Option<string>
  {
    if |members| == 1 && members[0].key == REF && members[0].value.Text? then Some(members[0].value.text) else None
  }

  function Names(reg: Registry): set<string>
  {
    set k | k in reg.Keys :: k.0
  }

  function Unseen(reg: Registry, seen: seq<string>): set<string>
  {
    set r | r in Names(reg) && r !in seen
  }

  lemma UnseenShrinks(reg: Registry, seen: seq<string>, reference: string, document: string)
    requires (reference, document) in reg && reference !in seen
    ensures reference in Unseen(reg, seen)
    ensures Unseen(reg, seen + [reference]) == Unseen(reg, seen) - {reference}
    ensures |Unseen(reg, seen + [reference])| < |Unseen(reg, seen)|
  {
    assert reference in Names(reg) by {
      assert (reference, document).0 == reference;
    }
    assert Unseen(reg, seen + [reference]) == Unseen(reg, seen) - {reference};
  }

  // ---- The expansion ----------------------------------------------------------

  /** Inline every reference, refusing one that is not alone, that does not resolve, or that is being expanded. */
  function Expand(reg: Registry, v: Json, document: string, seen: seq<string>): Option<Json>
    decreases |Unseen(reg, seen)|, v
  {
    match v
    case Text(_) => Some(v)
    case Scalar(_) => Some(v)
    case List(items) =>
      var r := ExpandAll(reg, items, document, seen);
      if r.None? then None else Some(List(r.value))
    case Object(members) =>
      if !HasRef(members) then
        var r := ExpandMembers(reg, members, document, seen);
        if r.None? then None else Some(Object(r.value))
      else
        var reference := Reference(members);
        if reference.None? || reference.value in seen || (reference.value, document) !in reg then None
        else
          UnseenShrinks(reg, seen, reference.value, document);
          var target := reg[(reference.value, document)];
          Expand(reg, target.contents, target.document, seen + [reference.value])
  }

  function ExpandAll(reg: Registry, items: seq<Json>, document: string, seen: seq<string>): Option<seq<Json>>
    decreases |Unseen(reg, seen)|, items
  {
    if items == [] then Some([])
    else
      var first, rest := Expand(reg, items[0], document, seen), ExpandAll(reg, items[1..], document, seen);
      if first.None? || rest.None? then None else Some([first.value] + rest.value)
  }

  function ExpandMembers(reg: Registry, members: seq<Member>, document: string, seen: seq<string>): Option<seq<Member>>
    decreases |Unseen(reg, seen)|, members
  {
    if members == [] then Some([])
    else
      var first := Expand(reg, members[0].value, document, seen);
      var rest := ExpandMembers(reg, members[1..], document, seen);
      if first.None? || rest.None? then None else Some([Member(members[0].key, first.value)] + rest.value)
  }

  // ---- No reference is left ---------------------------------------------------

  ghost predicate Plain(v: Json)
  {
    match v
    case Text(_) => true
    case Scalar(_) => true
    case List(items) => forall i :: 0 <= i < |items| ==> Plain(items[i])
    case Object(members) => forall i :: 0 <= i < |members| ==> members[i].key != REF && Plain(members[i].value)
  }

  /** Whatever the expansion returns holds no reference, at any depth. */
  lemma {:induction false} ExpandPlain(reg: Registry, v: Json, document: string, seen: seq<string>)
    requires Expand(reg, v, document, seen).Some?
    ensures Plain(Expand(reg, v, document, seen).value)
    decreases |Unseen(reg, seen)|, v
  {
    match v
    case Text(_) =>
    case Scalar(_) =>
    case List(items) => ExpandAllPlain(reg, items, document, seen);
    case Object(members) =>
      if !HasRef(members) {
        ExpandMembersPlain(reg, members, document, seen);
      } else {
        var reference := Reference(members).value;
        UnseenShrinks(reg, seen, reference, document);
        ExpandPlain(reg, reg[(reference, document)].contents, reg[(reference, document)].document, seen + [reference]);
      }
  }

  lemma {:induction false} ExpandAllPlain(reg: Registry, items: seq<Json>, document: string, seen: seq<string>)
    requires ExpandAll(reg, items, document, seen).Some?
    ensures forall i :: 0 <= i < |ExpandAll(reg, items, document, seen).value| ==>
      Plain(ExpandAll(reg, items, document, seen).value[i])
    decreases |Unseen(reg, seen)|, items
  {
    if items != [] {
      ExpandPlain(reg, items[0], document, seen);
      ExpandAllPlain(reg, items[1..], document, seen);
    }
  }

  lemma {:induction false} ExpandMembersPlain(reg: Registry, members: seq<Member>, document: string, seen: seq<string>)
    requires ExpandMembers(reg, members, document, seen).Some? && !HasRef(members)
    ensures var r := ExpandMembers(reg, members, document, seen).value;
      forall i :: 0 <= i < |r| ==> r[i].key != REF && Plain(r[i].value)
    decreases |Unseen(reg, seen)|, members
  {
    if members != [] {
      assert members[0].key != REF;
      ExpandPlain(reg, members[0].value, document, seen);
      assert !HasRef(members[1..]);
      ExpandMembersPlain(reg, members[1..], document, seen);
    }
  }

  // ---- What is refused outright, and what is left alone -----------------------

  /** Every reference of the value stands alone in its object and is text. */
  ghost predicate LoneRefs(v: Json)
  {
    match v
    case Text(_) => true
    case Scalar(_) => true
    case List(items) => forall i :: 0 <= i < |items| ==> LoneRefs(items[i])
    case Object(members) =>
      || (exists reference :: members == [Member("$ref", Text(reference))])
      || (forall i :: 0 <= i < |members| ==> members[i].key != "$ref" && LoneRefs(members[i].value))
  }

  /** A reference beside other members, or one that is not text, is refused wherever it stands. */
  lemma {:induction false} RefsAlone(reg: Registry, v: Json, document: string, seen: seq<string>)
    requires Expand(reg, v, document, seen).Some?
    ensures LoneRefs(v)
    decreases v
  {
    match v
    case Text(_) =>
    case Scalar(_) =>
    case List(items) => ItemsAlone(reg, items, document, seen);
    case Object(members) =>
      if !HasRef(members) {
        MembersAlone(reg, members, document, seen);
      } else {
        assert members == [Member("$ref", Text(members[0].value.text))];
      }
  }

  lemma {:induction false} ItemsAlone(reg: Registry, items: seq<Json>, document: string, seen: seq<string>)
    requires ExpandAll(reg, items, document, seen).Some?
    ensures forall i :: 0 <= i < |items| ==> LoneRefs(items[i])
    decreases items
  {
    if items != [] {
      RefsAlone(reg, items[0], document, seen);
      ItemsAlone(reg, items[1..], document, seen);
      assert items == [items[0]] + items[1..];
    }
  }

  lemma {:induction false} MembersAlone(reg: Registry, members: seq<Member>, document: string, seen: seq<string>)
    requires ExpandMembers(reg, members, document, seen).Some?
    ensures forall i :: 0 <= i < |members| ==> LoneRefs(members[i].value)
    decreases members
  {
    if members != [] {
      RefsAlone(reg, members[0].value, document, seen);
      MembersAlone(reg, members[1..], document, seen);
      assert members == [members[0]] + members[1..];
    }
  }

  /** A value without references expands to itself, in any registry. */
  lemma {:induction false} PlainUnchanged(reg: Registry, v: Json, document: string, seen: seq<string>)
    requires Plain(v)
    ensures Expand(reg, v, document, seen) == Some(v)
    decreases v
  {
    match v
    case Text(_) =>
    case Scalar(_) =>
    case List(items) => ItemsUnchanged(reg, items, document, seen);
    case Object(members) => MembersUnchanged(reg, members, document, seen);
  }

  lemma {:induction false} ItemsUnchanged(reg: Registry, items: seq<Json>, document: string, seen: seq<string>)
    requires forall i :: 0 <= i < |items| ==> Plain(items[i])
    ensures ExpandAll(reg, items, document, seen) == Some(items)
    decreases items
  {
    if items != [] {
      PlainUnchanged(reg, items[0], document, seen);
      ItemsUnchanged(reg, items[1..], document, seen);
      assert items == [items[0]] + items[1..];
    }
  }

  lemma {:induction false} MembersUnchanged(reg: Registry, members: seq<Member>, document: string, seen: seq<string>)
    requires forall i :: 0 <= i < |members| ==> Plain(members[i].value)
    ensures ExpandMembers(reg, members, document, seen) == Some(members)
    decreases members
  {
    if members != [] {
      PlainUnchanged(reg, members[0].value, document, seen);
      MembersUnchanged(reg, members[1..], document, seen);
      assert members == [members[0]] + members[1..];
    }
  }

  // ---- Plain inlining, with no memory of what was seen ------------------------

  /** Inline references up to `depth` deep. */
  function Inline(reg: Registry, v: Json, document: string, depth: nat): Option<Json>
    decreases depth, v
  {
    match v
    case Text(_) => Some(v)
    case Scalar(_) => Some(v)
    case List(items) =>
      var r := InlineAll(reg, items, document, depth);
      if r.None? then None else Some(List(r.value))
    case Object(members) =>
      if !HasRef(members) then
        var r := InlineMembers(reg, members, document, depth);
        if r.None? then None else Some(Object(r.value))
      else
        var reference := Reference(members);
        if reference.None? || depth == 0 || (reference.value, document) !in reg then None
        else Inline(reg, reg[(reference.value, document)].contents, reg[(reference.value, document)].document, depth - 1)
  }

  function InlineAll(reg: Registry, items: seq<Json>, document: string, depth: nat): Option<seq<Json>>
    decreases depth, items
  {
    if items == [] then Some([])
    else
      var first, rest := Inline(reg, items[0], document, depth), InlineAll(reg, items[1..], document, depth);
      if first.None? || rest.None? then None else Some([first.value] + rest.value)
  }

  function InlineMembers(reg: Registry, members: seq<Member>, document: string, depth: nat): Option<seq<Member>>
    decreases depth, members
  {
    if members == [] then Some([])
    else
      var first := Inline(reg, members[0].value, document, depth);
      var rest := InlineMembers(reg, members[1..], document, depth);
      if first.None? || rest.None? then None else Some([Member(members[0].key, first.value)] + rest.value)
  }

  /** More depth never changes an answer. */
  lemma {:induction false} InlineDeeper(reg: Registry, v: Json, document: string, d: nat, e: nat)
    requires d <= e && Inline(reg, v, document, d).Some?
    ensures Inline(reg, v, document, e) == Inline(reg, v, document, d)
    decreases d, v
  {
    match v
    case Text(_) =>
    case Scalar(_) =>
    case List(items) => InlineAllDeeper(reg, items, document, d, e);
    case Object(members) =>
      if !HasRef(members) {
        InlineMembersDeeper(reg, members, document, d, e);
      } else {
        var target := reg[(Reference(members).value, document)];
        InlineDeeper(reg, target.contents, target.document, d - 1, e - 1);
      }
  }

  lemma {:induction false} InlineAllDeeper(reg: Registry, items: seq<Json>, document: string, d: nat, e: nat)
    requires d <= e && InlineAll(reg, items, document, d).Some?
    ensures InlineAll(reg, items, document, e) == InlineAll(reg, items, document, d)
    decreases d, items
  {
    if items != [] {
      InlineDeeper(reg, items[0], document, d, e);
      InlineAllDeeper(reg, items[1..], document, d, e);
    }
  }

  lemma {:induction false} InlineMembersDeeper(reg: Registry, members: seq<Member>, document: string, d: nat, e: nat)
    requires d <= e && InlineMembers(reg, members, document, d).Some?
    ensures InlineMembers(reg, members, document, e) == InlineMembers(reg, members, document, d)
    decreases d, members
  {
    if members != [] {
      InlineDeeper(reg, members[0].value, document, d, e);
      InlineMembersDeeper(reg, members[1..], document, d, e);
    }
  }

  // ---- Soundness --------------------------------------------------------------

  /** What the expansion returns is the inlining; as many levels as there are unseen references suffice. */
  lemma {:induction false} ExpandIsInline(reg: Registry, v: Json, document: string, seen: seq<string>)
    requires Expand(reg, v, document, seen).Some?
    ensures Inline(reg, v, document, |Unseen(reg, seen)|) == Expand(reg, v, document, seen)
    decreases |Unseen(reg, seen)|, v
  {
    match v
    case Text(_) =>
    case Scalar(_) =>
    case List(items) => ExpandAllIsInline(reg, items, document, seen);
    case Object(members) =>
      if !HasRef(members) {
        ExpandMembersIsInline(reg, members, document, seen);
      } else {
        var reference := Reference(members).value;
        var target := reg[(reference, document)];
        UnseenShrinks(reg, seen, reference, document);
        ExpandIsInline(reg, target.contents, target.document, seen + [reference]);
        InlineDeeper(reg, target.contents, target.document, |Unseen(reg, seen + [reference])|, |Unseen(reg, seen)| - 1);
      }
  }

  lemma {:induction false} ExpandAllIsInline(reg: Registry, items: seq<Json>, document: string, seen: seq<string>)
    requires ExpandAll(reg, items, document, seen).Some?
    ensures InlineAll(reg, items, document, |Unseen(reg, seen)|) == ExpandAll(reg, items, document, seen)
    decreases |Unseen(reg, seen)|, items
  {
    if items != [] {
      ExpandIsInline(reg, items[0], document, seen);
      ExpandAllIsInline(reg, items[1..], document, seen);
    }
  }

  lemma {:induction false} ExpandMembersIsInline(reg: Registry, members: seq<Member>, document: string, seen: seq<string>)
    requires ExpandMembers(reg, members, document, seen).Some?
    ensures InlineMembers(reg, members, document, |Unseen(reg, seen)|) == ExpandMembers(reg, members, document, seen)
    decreases |Unseen(reg, seen)|, members
  {
    if members != [] {
      ExpandIsInline(reg, members[0].value, document, seen);
      ExpandMembersIsInline(reg, members[1..], document, seen);
    }
  }

  // ---- Completeness -----------------------------------------------------------

  /** A reference means the same whatever document it is read in. */
  ghost predicate Unambiguous(reg: Registry)
  {
    forall r: string, d: string, e: string :: (r, d) in reg && (r, e) in reg ==> reg[(r, d)] == reg[(r, e)]
  }

  /** The reference, read in some document, can be inlined within `depth` levels. */
  ghost predicate Resolves(reg: Registry, reference: string, depth: nat)
  {
    exists d :: ResolvesIn(reg, reference, d, depth)
  }

  ghost predicate ResolvesIn(reg: Registry, reference: string, document: string, depth: nat)
  {
    && depth > 0 && (reference, document) in reg
    && Inline(reg, reg[(reference, document)].contents, reg[(reference, document)].document, depth - 1).Some?
  }

  /** None of the references being expanded can be inlined within the depth that is left. */
  ghost predicate TooDeep(reg: Registry, seen: seq<string>, depth: nat)
  {
    forall r :: r in seen ==> !Resolves(reg, r, depth)
  }

  lemma TooDeepBelow(reg: Registry, seen: seq<string>, d: nat, e: nat)
    requires TooDeep(reg, seen, e) && d <= e
    ensures TooDeep(reg, seen, d)
  {
    forall r | r in seen ensures !Resolves(reg, r, d) {
      if document :| ResolvesIn(reg, r, document, d) {
        var target := reg[(r, document)];
        InlineDeeper(reg, target.contents, target.document, d - 1, e - 1);
        assert ResolvesIn(reg, r, document, e);
      }
    }
  }

  /** The least depth at which something that can be inlined can be inlined. */
  lemma {:induction false} LeastDepth(reg: Registry, v: Json, document: string, d: nat) returns (least: nat)
    requires Inline(reg, v, document, d).Some?
    ensures least <= d && Inline(reg, v, document, least) == Inline(reg, v, document, d)
    ensures least > 0 ==> Inline(reg, v, document, least - 1).None?
    decreases d
  {
    least := d;
    if d > 0 && Inline(reg, v, document, d - 1).Some? {
      InlineDeeper(reg, v, document, d - 1, d);
      least := LeastDepth(reg, v, document, d - 1);
    }
  }

  /** Expanding at the least depth keeps every reference on the way out of reach of itself. */
  lemma StillTooDeep(reg: Registry, seen: seq<string>, reference: string, document: string, least: nat)
    requires Unambiguous(reg) && TooDeep(reg, seen, least) && (reference, document) in reg
    requires least > 0 ==> Inline(reg, reg[(reference, document)].contents, reg[(reference, document)].document, least - 1).None?
    ensures TooDeep(reg, seen + [reference], least)
  {
    forall d ensures !ResolvesIn(reg, reference, d, least) {
      if (reference, d) in reg {
        assert reg[(reference, d)] == reg[(reference, document)];
      }
    }
  }

  /** Whatever can be inlined is expanded, when references are unambiguous. */
  lemma {:induction false} InlineIsExpanded(reg: Registry, v: Json, document: string, seen: seq<string>, depth: nat)
    requires Unambiguous(reg) && TooDeep(reg, seen, depth) && Inline(reg, v, document, depth).Some?
    ensures Expand(reg, v, document, seen) == Inline(reg, v, document, depth)
    decreases |Unseen(reg, seen)|, v
  {
    match v
    case Text(_) =>
    case Scalar(_) =>
    case List(items) => InlineAllIsExpanded(reg, items, document, seen, depth);
    case Object(members) =>
      if !HasRef(members) {
        InlineMembersIsExpanded(reg, members, document, seen, depth);
      } else {
        var reference := Reference(members).value;
        var target := reg[(reference, document)];
        assert ResolvesIn(reg, reference, document, depth);
        assert reference !in seen;
        var least := LeastDepth(reg, target.contents, target.document, depth - 1);
        TooDeepBelow(reg, seen, least, depth);
        StillTooDeep(reg, seen, reference, document, least);
        UnseenShrinks(reg, seen, reference, document);
        InlineIsExpanded(reg, target.contents, target.document, seen + [reference], least);
      }
  }

  lemma {:induction false} InlineAllIsExpanded(reg: Registry, items: seq<Json>, document: string, seen: seq<string>, depth: nat)
    requires Unambiguous(reg) && TooDeep(reg, seen, depth) && InlineAll(reg, items, document, depth).Some?
    ensures ExpandAll(reg, items, document, seen) == InlineAll(reg, items, document, depth)
    decreases |Unseen(reg, seen)|, items
  {
    if items != [] {
      InlineIsExpanded(reg, items[0], document, seen, depth);
      InlineAllIsExpanded(reg, items[1..], document, seen, depth);
    }
  }

  lemma {:induction false} InlineMembersIsExpanded(reg: Registry, members: seq<Member>, document: string, seen: seq<string>, depth: nat)
    requires Unambiguous(reg) && TooDeep(reg, seen, depth) && InlineMembers(reg, members, document, depth).Some?
    ensures ExpandMembers(reg, members, document, seen) == InlineMembers(reg, members, document, depth)
    decreases |Unseen(reg, seen)|, members
  {
    if members != [] {
      InlineIsExpanded(reg, members[0].value, document, seen, depth);
      InlineMembersIsExpanded(reg, members[1..], document, seen, depth);
    }
  }

  /** With unambiguous references, a value expands exactly when some finite inlining of it exists. */
  lemma ExpandsIffFinite(reg: Registry, v: Json, document: string)
    requires Unambiguous(reg)
    ensures Expand(reg, v, document, []).Some? <==> exists depth :: Inline(reg, v, document, depth).Some?
    ensures forall depth :: Inline(reg, v, document, depth).Some? ==>
      Expand(reg, v, document, []) == Inline(reg, v, document, depth)
  {
    if Expand(reg, v, document, []).Some? {
      ExpandIsInline(reg, v, document, []);
    }
    forall depth | Inline(reg, v, document, depth).Some?
      ensures Expand(reg, v, document, []) == Inline(reg, v, document, depth)
    {
      InlineIsExpanded(reg, v, document, [], depth);
    }
  }

  // ---- Where the test for recursion is too strict -----------------------------

  /** The expansion, given `seen`, comes back to a name on its way through `v`. */
  ghost predicate Repeats(reg: Registry, v: Json, document: string, depth: nat, seen: seq<string>)
    decreases depth, v
  {
    match v
    case Text(_) => false
    case Scalar(_) => false
    case List(items) => exists i :: 0 <= i < |items| && Repeats(reg, items[i], document, depth, seen)
    case Object(members) =>
      if !HasRef(members) then exists i :: 0 <= i < |members| && Repeats(reg, members[i].value, document, depth, seen)
      else
        && depth > 0 && Reference(members).Some? && (Reference(members).value, document) in reg
        && var reference, target := Reference(members).value, reg[(Reference(members).value, document)];
           reference in seen || Repeats(reg, target.contents, target.document, depth - 1, seen + [reference])
  }

  lemma {:induction false} RefusedAsRepeats(reg: Registry, v: Json, document: string, seen: seq<string>, depth: nat)
    requires Inline(reg, v, document, depth).Some?
    ensures Expand(reg, v, document, seen).Some? <==> !Repeats(reg, v, document, depth, seen)
    decreases depth, v
  {
    match v
    case Text(_) =>
    case Scalar(_) =>
    case List(items) => RefusedInItems(reg, items, document, seen, depth);
    case Object(members) =>
      if !HasRef(members) {
        RefusedInMembers(reg, members, document, seen, depth);
      } else {
        var reference := Reference(members).value;
        var target := reg[(reference, document)];
        RefusedAsRepeats(reg, target.contents, target.document, seen + [reference], depth - 1);
        if reference !in seen {
          UnseenShrinks(reg, seen, reference, document);
        }
      }
  }

  lemma {:induction false} RefusedInItems(reg: Registry, items: seq<Json>, document: string, seen: seq<string>, depth: nat)
    requires InlineAll(reg, items, document, depth).Some?
    ensures ExpandAll(reg, items, document, seen).None? <==>
      exists i :: 0 <= i < |items| && Repeats(reg, items[i], document, depth, seen)
    decreases depth, items
  {
    if items != [] {
      RefusedAsRepeats(reg, items[0], document, seen, depth);
      RefusedInItems(reg, items[1..], document, seen, depth);
      forall i | 0 <= i < |items| ensures i > 0 ==> items[i] == items[1..][i - 1] {
      }
    }
  }

  lemma {:induction false} RefusedInMembers(reg: Registry, members: seq<Member>, document: string, seen: seq<string>, depth: nat)
    requires InlineMembers(reg, members, document, depth).Some?
    ensures ExpandMembers(reg, members, document, seen).None? <==>
      exists i :: 0 <= i < |members| && Repeats(reg, members[i].value, document, depth, seen)
    decreases depth, members
  {
    if members != [] {
      RefusedAsRepeats(reg, members[0].value, document, seen, depth);
      RefusedInMembers(reg, members[1..], document, seen, depth);
      forall i | 0 <= i < |members| ensures i > 0 ==> members[i] == members[1..][i - 1] {
      }
    }
  }

  /** Values that mention a reference outside the targets of other references. */
  ghost predicate Uses(v: Json, reference: string)
  {
    match v
    case Text(_) => false
    case Scalar(_) => false
    case List(items) => exists i :: 0 <= i < |items| && Uses(items[i], reference)
    case Object(members) =>
      if HasRef(members) then Reference(members) == Some(reference)
      else exists i :: 0 <= i < |members| && Uses(members[i].value, reference)
  }

  /** A chain of references: each is used by the value the one before it leads to, the first by `v`. */
  ghost predicate RefChain(reg: Registry, v: Json, document: string, chain: seq<string>)
    decreases |chain|
  {
    chain == [] ||
    (&& Uses(v, chain[0]) && (chain[0], document) in reg
     && RefChain(reg, reg[(chain[0], document)].contents, reg[(chain[0], document)].document, chain[1..]))
  }

  /** Some name of the chain is in `seen` or came earlier in the chain. */
  ghost predicate Meets(chain: seq<string>, seen: seq<string>)
  {
    exists j :: 0 <= j < |chain| && (chain[j] in seen || chain[j] in chain[..j])
  }

  lemma MeetsLater(reference: string, chain: seq<string>, seen: seq<string>)
    ensures Meets([reference] + chain, seen) <==> reference in seen || Meets(chain, seen + [reference])
  {
    var whole := [reference] + chain;
    forall j | 0 <= j < |chain|
      ensures whole[j + 1] == chain[j] && (chain[j] in whole[..j + 1] <==> chain[j] == reference || chain[j] in chain[..j])
    {
      assert whole[..j + 1] == [reference] + chain[..j];
    }
    if Meets(whole, seen) {
      var j :| 0 <= j < |whole| && (whole[j] in seen || whole[j] in whole[..j]);
      if j > 0 {
        assert whole[(j - 1) + 1] == chain[j - 1];
      }
    }
    if Meets(chain, seen + [reference]) {
      var j :| 0 <= j < |chain| && (chain[j] in seen + [reference] || chain[j] in chain[..j]);
      assert whole[j + 1] in seen || whole[j + 1] in whole[..j + 1];
    }
    if reference in seen {
      assert whole[0] in seen;
    }
  }

  lemma {:induction false} RepeatsHasChain(reg: Registry, v: Json, document: string, depth: nat, seen: seq<string>)
    returns (chain: seq<string>)
    requires Repeats(reg, v, document, depth, seen)
    ensures RefChain(reg, v, document, chain) && Meets(chain, seen)
    decreases depth, v
  {
    match v
    case List(items) =>
      var i :| 0 <= i < |items| && Repeats(reg, items[i], document, depth, seen);
      chain := RepeatsHasChain(reg, items[i], document, depth, seen);
    case Object(members) =>
      if !HasRef(members) {
        var i :| 0 <= i < |members| && Repeats(reg, members[i].value, document, depth, seen);
        chain := RepeatsHasChain(reg, members[i].value, document, depth, seen);
      } else {
        var reference := Reference(members).value;
        var target := reg[(reference, document)];
        var rest: seq<string> := [];
        if reference !in seen {
          rest := RepeatsHasChain(reg, target.contents, target.document, depth - 1, seen + [reference]);
        }
        chain := [reference] + rest;
        assert chain[1..] == rest;
        MeetsLater(reference, rest, seen);
      }
  }

  lemma {:induction false} InlineAllAt(reg: Registry, items: seq<Json>, document: string, depth: nat, i: nat)
    requires InlineAll(reg, items, document, depth).Some? && i < |items|
    ensures Inline(reg, items[i], document, depth).Some?
  {
    if i > 0 {
      InlineAllAt(reg, items[1..], document, depth, i - 1);
    }
  }

  lemma {:induction false} InlineMembersAt(reg: Registry, members: seq<Member>, document: string, depth: nat, i: nat)
    requires InlineMembers(reg, members, document, depth).Some? && i < |members|
    ensures Inline(reg, members[i].value, document, depth).Some?
  {
    if i > 0 {
      InlineMembersAt(reg, members[1..], document, depth, i - 1);
    }
  }

  lemma {:induction false} ChainRepeats(reg: Registry, v: Json, document: string, depth: nat, seen: seq<string>, chain: seq<string>)
    requires Inline(reg, v, document, depth).Some?
    requires RefChain(reg, v, document, chain) && Meets(chain, seen)
    ensures Repeats(reg, v, document, depth, seen)
    decreases depth, v
  {
    var first := chain[0];
    match v
    case Text(_) =>
    case Scalar(_) =>
    case List(items) =>
      var i :| 0 <= i < |items| && Uses(items[i], first);
      InlineAllAt(reg, items, document, depth, i);
      ChainRepeats(reg, items[i], document, depth, seen, chain);
    case Object(members) =>
      if !HasRef(members) {
        var i :| 0 <= i < |members| && Uses(members[i].value, first);
        InlineMembersAt(reg, members, document, depth, i);
        ChainRepeats(reg, members[i].value, document, depth, seen, chain);
      } else {
        var target := reg[(first, document)];
        assert chain == [first] + chain[1..];
        MeetsLater(first, chain[1..], seen);
        if first !in seen {
          ChainRepeats(reg, target.contents, target.document, depth - 1, seen + [first], chain[1..]);
        }
      }
  }

  ghost predicate NamesTwice(chain: seq<string>)
  {
    exists i, j :: 0 <= i < j < |chain| && chain[i] == chain[j]
  }

  lemma MeetsItself(chain: seq<string>)
    ensures Meets(chain, []) <==> NamesTwice(chain)
  {
    if i, j :| 0 <= i < j < |chain| && chain[i] == chain[j] {
      assert chain[..j][i] == chain[j];
    }
  }

  ghost predicate RepeatsChain(reg: Registry, v: Json, document: string)
  {
    exists chain :: RefChain(reg, v, document, chain) && NamesTwice(chain)
  }

  lemma RefusedAtDepth(reg: Registry, v: Json, document: string, depth: nat)
    requires Inline(reg, v, document, depth).Some?
    ensures Expand(reg, v, document, []).Some? <==> !RepeatsChain(reg, v, document)
  {
    RefusedAsRepeats(reg, v, document, [], depth);
    if Repeats(reg, v, document, depth, []) {
      var chain := RepeatsHasChain(reg, v, document, depth, []);
      MeetsItself(chain);
    }
    if chain :| RefChain(reg, v, document, chain) && NamesTwice(chain) {
      MeetsItself(chain);
      ChainRepeats(reg, v, document, depth, [], chain);
    }
  }

  /**
   * For any registry and value: the expansion succeeds exactly when a finite inlining exists and no chain of
   * references, followed through the documents they lead to, names one reference twice.
   */
  lemma RefusedIffRepeats(reg: Registry, v: Json, document: string)
    ensures Expand(reg, v, document, []).Some? <==>
      (exists depth :: Inline(reg, v, document, depth).Some?) && !RepeatsChain(reg, v, document)
  {
    if Expand(reg, v, document, []).Some? {
      ExpandIsInline(reg, v, document, []);
    }
    if depth :| Inline(reg, v, document, depth).Some? {
      RefusedAtDepth(reg, v, document, depth);
    }
  }

  function Ref(reference: string): Json
  {
    Object([Member(REF, Text(reference))])
  }

  /** One relative reference used in two documents: a finite inlining exists, yet the expansion refuses it. */
  lemma RelativeReferenceRefused()
    ensures var reg: Registry := map[("#x", "a") := Target(Ref("b#x"), "a"),
                                     ("b#x", "a") := Target(Ref("#x"), "b"),
                                     ("#x", "b") := Target(Scalar(1), "b")];
      && !Unambiguous(reg)
      && Inline(reg, Ref("#x"), "a", 3) == Some(Scalar(1))
      && Expand(reg, Ref("#x"), "a", []) == None
  {
    var reg: Registry := map[("#x", "a") := Target(Ref("b#x"), "a"),
                             ("b#x", "a") := Target(Ref("#x"), "b"),
                             ("#x", "b") := Target(Scalar(1), "b")];
    assert reg[("#x", "a")] == Target(Ref("b#x"), "a") && reg[("b#x", "a")] == Target(Ref("#x"), "b");
    assert reg[("#x", "b")] == Target(Scalar(1), "b");
    assert Reference(Ref("#x").members) == Some("#x") && Reference(Ref("b#x").members) == Some("b#x");
    assert HasRef(Ref("#x").members) && HasRef(Ref("b#x").members);
    assert Inline(reg, Ref("#x"), "b", 1) == Inline(reg, Scalar(1), "b", 0);
    assert Inline(reg, Ref("b#x"), "a", 2) == Inline(reg, Ref("#x"), "b", 1);
    assert Expand(reg, Ref("#x"), "b", ["#x", "b#x"]) == None;
    UnseenShrinks(reg, [], "#x", "a");
    UnseenShrinks(reg, ["#x"], "b#x", "a");
    assert [] + ["#x"] == ["#x"] && ["#x"] + ["b#x"] == ["#x", "b#x"];
    assert Expand(reg, Ref("b#x"), "a", ["#x"]) == Expand(reg, Ref("#x"), "b", ["#x", "b#x"]);
  }
}
