/** The component check of a form definition: `missingRequiredProperties`. */
module FlowComponents {
  import opened Options
  import opened CanonicalJson

  /** Meta's required properties per component type. */
  function RequiredProperties(): map<string, seq<string>> {
    map[
      "TextHeading" := ["text"],
      "TextSubheading" := ["text"],
      "TextBody" := ["text"],
      "TextCaption" := ["text"],
      "RichText" := ["text"],
      "Image" := ["src"],
      "Footer" := ["label", "on-click-action"],
      "EmbeddedLink" := ["text", "on-click-action"],
      "If" := ["condition", "then"],
      "Switch" := ["value", "cases"],
      "TextInput" := ["label", "name"],
      "TextArea" := ["label", "name"],
      "DatePicker" := ["label", "name"],
      "CalendarPicker" := ["label", "name"],
      "Dropdown" := ["label", "data-source", "name"],
      "RadioButtonsGroup" := ["label", "data-source", "name"],
      "CheckboxGroup" := ["label", "data-source", "name"],
      "ChipsSelector" := ["label", "data-source", "name"],
      "OptIn" := ["label", "name"]
    ]
  }

  function Get(fields: seq<Field>, key: string): (r: Option<Value>)
    ensures r.Some? ==> Field(key, r.value) in fields
  {
    if fields == [] then None
    else if fields[0].key == key then Some(fields[0].value)
    else Get(fields[1..], key)
  }

  /** A component type the value declares for itself. */
  function Kind(v: Value): Option<string> {
    if v.Obj? then
      match Get(v.fields, "type")
      case Some(Str(s)) => Some(s)
      case _ => None
    else None
  }

  /** The entries of a `cases` member, an object's or an array's. */
  function CasesOf(v: Value): seq<Value>
    requires v.Obj?
  {
    match Get(v.fields, "cases")
    case Some(Arr(items)) => items
    case Some(Obj(fields)) => seq(|fields|, i requires 0 <= i < |fields| => fields[i].value)
    case _ => []
  }

  /** An address starts at a screen's children; each further step leads to a value the check looks at next. */
  datatype Step = Screen(id: string) | Item(i: nat) | Member(key: string) | Case(i: nat)

  datatype Gap =
    | Unknown(at: seq<Step>, kind: string)
    | Missing(at: seq<Step>, kind: string, prop: string)

  // ---------- Where components stand, and what is wrong with one ----------

  const FOLLOWED: seq<string> := ["children", "then", "else"]

  function Sub(v: Value, step: Step): Option<Value> {
    match step
    case Screen(_) => None
    case Item(i) => if v.Arr? && i < |v.items| then Some(v.items[i]) else None
    case Member(key) => if v.Obj? && key in {"children", "then", "else"} then Get(v.fields, key) else None
    case Case(i) =>
      if !v.Obj? then None
      else match Get(v.fields, "cases")
        case Some(Arr(items)) => if i < |items| then Some(items[i]) else None
        case Some(Obj(fields)) => if i < |fields| then Some(fields[i].value) else None
        case _ => None
  }

  /** The value of the member so called, none where no member is. */
  lemma {:induction false} GetExactly(fields: seq<Field>, key: string, i: nat)
    requires i <= |fields| && forall j :: 0 <= j < i ==> fields[j].key != key
    requires i < |fields| ==> fields[i].key == key
    ensures Get(fields, key) == if i < |fields| then Some(fields[i].value) else None
  {
    if i > 0 { GetExactly(fields[1..], key, i - 1); }
  }

  /** A component is an object whose type is a string. */
  lemma KindExactly(v: Value, kind: string)
    ensures Kind(v) == Some(kind) <==> v.Obj? && Get(v.fields, "type") == Some(Str(kind))
  {
  }

  /** The value at an address. */
  function At(v: Value, path: seq<Step>): Option<Value> {
    if path == [] then Some(v)
    else match Sub(v, path[0])
      case None => None
      case Some(w) => At(w, path[1..])
  }

  /** The gap is one of this very value's own. */
  predicate OwnGap(v: Value, g: Gap) {
    && Kind(v) == Some(g.kind)
    && match g
       case Unknown(_, kind) => kind !in RequiredProperties()
       case Missing(_, kind, prop) =>
         kind in RequiredProperties() && prop in RequiredProperties()[kind] && Get(v.fields, prop) == None
  }

  /** The component is of a known type and has every property the type requires. */
  ghost predicate Complete(v: Value) {
    Kind(v).Some? ==>
      && Kind(v).value in RequiredProperties()
      && forall prop :: prop in RequiredProperties()[Kind(v).value] ==> Get(v.fields, prop).Some?
  }

  /** So is every component the visit can get to. */
  ghost predicate CompleteThroughout(v: Value) {
    forall path :: At(v, path).Some? ==> Complete(At(v, path).value)
  }

  // ---------- The gaps in the order the visit finds them ----------

  function MissingOf(fields: seq<Field>, props: seq<string>, at: seq<Step>, kind: string): seq<Gap> {
    if props == [] then []
    else (if Get(fields, props[0]) == None then [Missing(at, kind, props[0])] else [])
         + MissingOf(fields, props[1..], at, kind)
  }

  function GapsHere(v: Value, at: seq<Step>): seq<Gap> {
    match Kind(v)
    case None => []
    case Some(kind) =>
      if kind in RequiredProperties() then MissingOf(v.fields, RequiredProperties()[kind], at, kind)
      else [Unknown(at, kind)]
  }

  function Gaps(v: Value, at: seq<Step>): seq<Gap>
    decreases v, 2
  {
    if v.Arr? then ItemGaps(v, at, 0)
    else if v.Obj? then GapsHere(v, at) + MemberGaps(v, at, 0) + CaseGaps(v, at, 0)
    else []
  }

  function ItemGaps(v: Value, at: seq<Step>, i: nat): seq<Gap>
    requires v.Arr? && i <= |v.items|
    decreases v, 1, |v.items| - i
  {
    if i == |v.items| then [] else Gaps(v.items[i], at + [Item(i)]) + ItemGaps(v, at, i + 1)
  }

  function MemberGaps(v: Value, at: seq<Step>, i: nat): seq<Gap>
    requires v.Obj? && i <= |FOLLOWED|
    decreases v, 1, |FOLLOWED| - i
  {
    if i == |FOLLOWED| then []
    else
      (match Get(v.fields, FOLLOWED[i])
       case Some(w) => Gaps(w, at + [Member(FOLLOWED[i])])
       case None => [])
      + MemberGaps(v, at, i + 1)
  }

  function CaseGaps(v: Value, at: seq<Step>, i: nat): seq<Gap>
    requires v.Obj? && i <= |CasesOf(v)|
    decreases v, 1, |CasesOf(v)| - i
  {
    if i == |CasesOf(v)| then []
    else Smaller(v, i); Gaps(CasesOf(v)[i], at + [Case(i)]) + CaseGaps(v, at, i + 1)
  }

  lemma Smaller(v: Value, i: nat)
    requires v.Obj? && i < |CasesOf(v)|
    ensures v decreases to CasesOf(v)[i]
  {
    var cases := Get(v.fields, "cases").value;
    assert v decreases to cases;
    if cases.Obj? {
      assert cases decreases to cases.fields[i].value;
    } else {
      assert cases decreases to cases.items[i];
    }
  }

  // ---------- The visit itself ----------

  class PropertyCheck {
    var gaps: seq<Gap>

    constructor ()
      ensures gaps == []
    {
      gaps := [];
    }

    method Visit(v: Value, at: seq<Step>)
      modifies this
      ensures gaps == old(gaps) + Gaps(v, at)
      decreases v, 2
    {
      hide GapsHere;
      if v.Arr? {
        VisitItems(v, at);
      } else if v.Obj? {
        VisitOwn(v, at);
        VisitMembers(v, at);
        VisitCases(v, at);
      }
    }

    method VisitItems(v: Value, at: seq<Step>)
      requires v.Arr?
      modifies this
      ensures gaps == old(gaps) + ItemGaps(v, at, 0)
      decreases v, 1
    {
      hide Gaps;
      for i := 0 to |v.items|
        invariant gaps + ItemGaps(v, at, i) == old(gaps) + ItemGaps(v, at, 0)
      {
        Visit(v.items[i], at + [Item(i)]);
      }
    }

    method VisitMembers(v: Value, at: seq<Step>)
      requires v.Obj?
      modifies this
      ensures gaps == old(gaps) + MemberGaps(v, at, 0)
      decreases v, 1
    {
      hide Gaps;
      for i := 0 to |FOLLOWED|
        invariant gaps + MemberGaps(v, at, i) == old(gaps) + MemberGaps(v, at, 0)
      {
        var member := Get(v.fields, FOLLOWED[i]);
        if member.Some? { Visit(member.value, at + [Member(FOLLOWED[i])]); }
      }
    }

    method VisitCases(v: Value, at: seq<Step>)
      requires v.Obj?
      modifies this
      ensures gaps == old(gaps) + CaseGaps(v, at, 0)
      decreases v, 1
    {
      hide Gaps;
      var cases := CasesOf(v);
      for i := 0 to |cases|
        invariant gaps + CaseGaps(v, at, i) == old(gaps) + CaseGaps(v, at, 0)
      {
        Smaller(v, i);
        Visit(cases[i], at + [Case(i)]);
      }
    }

    method VisitOwn(v: Value, at: seq<Step>)
      requires v.Obj?
      modifies this
      ensures gaps == old(gaps) + GapsHere(v, at)
    {
      hide RequiredProperties;
      var kind := Kind(v);
      if kind.Some? {
        if kind.value in RequiredProperties() {
          VisitProperties(v.fields, RequiredProperties()[kind.value], at, kind.value);
        } else {
          gaps := gaps + [Unknown(at, kind.value)];
        }
      }
    }

    method VisitProperties(fields: seq<Field>, props: seq<string>, at: seq<Step>, kind: string)
      modifies this
      ensures gaps == old(gaps) + MissingOf(fields, props, at, kind)
    {
      assert props[0..] == props;
      for i := 0 to |props|
        invariant gaps + MissingOf(fields, props[i..], at, kind) == old(gaps) + MissingOf(fields, props, at, kind)
      {
        assert props[i..][1..] == props[i + 1..];
        if Get(fields, props[i]) == None { gaps := gaps + [Missing(at, kind, props[i])]; }
      }
    }
  }

  // ---------- Exactly the gaps there are, each at its own address ----------

  /** The gap is that of the component at its address below the base. */
  predicate Found(v: Value, base: seq<Step>, g: Gap) {
    && base <= g.at
    && At(v, g.at[|base|..]).Some?
    && OwnGap(At(v, g.at[|base|..]).value, g)
  }

  lemma FoundBelow(v: Value, base: seq<Step>, step: Step, g: Gap)
    requires Sub(v, step).Some?
    ensures Found(Sub(v, step).value, base + [step], g) <==> base + [step] <= g.at && Found(v, base, g)
  {
    hide OwnGap, Sub;
    if base + [step] <= g.at {
      var path := g.at[|base|..];
      assert path[0] == (base + [step])[|base|] == step;
      assert path[1..] == g.at[|base + [step]|..];
      assert base <= g.at;
    }
  }

  /** A gap found is this value's own or lies behind one step the check follows. */
  lemma FoundSplits(v: Value, base: seq<Step>, g: Gap)
    requires Found(v, base, g)
    ensures || (g.at == base && OwnGap(v, g))
            || (|base| < |g.at| && Sub(v, g.at[|base|]).Some? && base + [g.at[|base|]] <= g.at)
  {
    hide OwnGap, Sub;
    if g.at == base {
      assert g.at[|base|..] == [];
    } else {
      assert g.at[..|base|] == base;
      assert g.at[|base|..][0] == g.at[|base|];
    }
  }

  lemma {:induction false} MissingExactly(fields: seq<Field>, props: seq<string>, at: seq<Step>, kind: string, g: Gap)
    ensures g in MissingOf(fields, props, at, kind) <==>
            g.Missing? && g.at == at && g.kind == kind && g.prop in props && Get(fields, g.prop) == None
  {
    if props != [] { MissingExactly(fields, props[1..], at, kind, g); }
  }

  lemma HereExactly(v: Value, at: seq<Step>, g: Gap)
    ensures g in GapsHere(v, at) <==> g.at == at && OwnGap(v, g)
  {
    hide RequiredProperties;
    if Kind(v).Some? && Kind(v).value in RequiredProperties() {
      MissingExactly(v.fields, RequiredProperties()[Kind(v).value], at, Kind(v).value, g);
    }
  }

  lemma {:induction false} ItemsExactly(v: Value, base: seq<Step>, i: nat, g: Gap)
    requires v.Arr? && i <= |v.items|
    ensures g in ItemGaps(v, base, i) <==>
            exists j :: i <= j < |v.items| && Found(v.items[j], base + [Item(j)], g)
    decreases v, 1, |v.items| - i
  {
    hide Gaps, Found;
    if i < |v.items| {
      GapsExactly(v.items[i], base + [Item(i)], g);
      ItemsExactly(v, base, i + 1, g);
    }
  }

  lemma {:induction false} MembersExactly(v: Value, base: seq<Step>, i: nat, g: Gap)
    requires v.Obj? && i <= |FOLLOWED|
    ensures g in MemberGaps(v, base, i) <==>
            exists j :: i <= j < |FOLLOWED| && Get(v.fields, FOLLOWED[j]).Some?
                        && Found(Get(v.fields, FOLLOWED[j]).value, base + [Member(FOLLOWED[j])], g)
    decreases v, 1, |FOLLOWED| - i
  {
    hide Gaps, Found;
    if i < |FOLLOWED| {
      var w := Get(v.fields, FOLLOWED[i]);
      if w.Some? { GapsExactly(w.value, base + [Member(FOLLOWED[i])], g); }
      MembersExactly(v, base, i + 1, g);
    }
  }

  lemma {:induction false} CasesExactly(v: Value, base: seq<Step>, i: nat, g: Gap)
    requires v.Obj? && i <= |CasesOf(v)|
    ensures g in CaseGaps(v, base, i) <==>
            exists j :: i <= j < |CasesOf(v)| && Found(CasesOf(v)[j], base + [Case(j)], g)
    decreases v, 1, |CasesOf(v)| - i
  {
    hide Gaps, Found;
    if i < |CasesOf(v)| {
      Smaller(v, i);
      GapsExactly(CasesOf(v)[i], base + [Case(i)], g);
      CasesExactly(v, base, i + 1, g);
    }
  }

  /** The visit reports exactly the gaps of the components its steps lead to, however deep they stand. */
  lemma {:induction false} GapsExactly(v: Value, base: seq<Step>, g: Gap)
    ensures g in Gaps(v, base) <==> Found(v, base, g)
    decreases v, 2
  {
    hide Found, OwnGap, GapsHere, CasesOf;
    if v.Arr? {
      ItemsExactly(v, base, 0, g);
      ArrayFound(v, base, g);
    } else if v.Obj? {
      HereExactly(v, base, g);
      MembersExactly(v, base, 0, g);
      CasesExactly(v, base, 0, g);
      ObjectFound(v, base, g);
    } else {
      NothingFound(v, base, g);
    }
  }

  lemma NothingFound(v: Value, base: seq<Step>, g: Gap)
    requires !v.Arr? && !v.Obj?
    ensures !Found(v, base, g)
  {
    if Found(v, base, g) { FoundSplits(v, base, g); }
  }

  lemma ArrayFound(v: Value, base: seq<Step>, g: Gap)
    requires v.Arr?
    ensures Found(v, base, g) <==>
            exists j :: 0 <= j < |v.items| && Found(v.items[j], base + [Item(j)], g)
  {
    if Found(v, base, g) {
      FoundSplits(v, base, g);
      hide Found;
      FoundBelow(v, base, g.at[|base|], g);
      assert Found(v.items[g.at[|base|].i], base + [Item(g.at[|base|].i)], g);
    }
    hide Found;
    forall j | 0 <= j < |v.items| && Found(v.items[j], base + [Item(j)], g) ensures Found(v, base, g) {
      FoundBelow(v, base, Item(j), g);
    }
  }

  lemma SubOfObject(v: Value, step: Step)
    requires v.Obj?
    ensures Sub(v, step) ==
            match step
            case Member(key) => if key in FOLLOWED then Get(v.fields, key) else None
            case Case(i) => if i < |CasesOf(v)| then Some(CasesOf(v)[i]) else None
            case _ => None
  {
    assert FOLLOWED[0] == "children" && FOLLOWED[1] == "then" && FOLLOWED[2] == "else";
  }

  lemma ObjectFound(v: Value, base: seq<Step>, g: Gap)
    requires v.Obj?
    ensures Found(v, base, g) <==>
            || (g.at == base && OwnGap(v, g))
            || (exists j :: 0 <= j < |FOLLOWED| && Get(v.fields, FOLLOWED[j]).Some?
                            && Found(Get(v.fields, FOLLOWED[j]).value, base + [Member(FOLLOWED[j])], g))
            || exists j :: 0 <= j < |CasesOf(v)| && Found(CasesOf(v)[j], base + [Case(j)], g)
  {
    hide OwnGap, Found, CasesOf, Sub;
    forall step ensures Sub(v, step) ==
                        match step
                        case Member(key) => if key in FOLLOWED then Get(v.fields, key) else None
                        case Case(i) => if i < |CasesOf(v)| then Some(CasesOf(v)[i]) else None
                        case _ => None
    {
      SubOfObject(v, step);
    }
    if Found(v, base, g) {
      FoundSplits(v, base, g);
      if g.at != base || !OwnGap(v, g) {
        var step := g.at[|base|];
        FoundBelow(v, base, step, g);
        assert step.Member? ==> exists j :: 0 <= j < |FOLLOWED| && FOLLOWED[j] == step.key;
      }
    }
    if g.at == base && OwnGap(v, g) { FoundHere(v, base, g); }
    forall j | 0 <= j < |FOLLOWED| && Get(v.fields, FOLLOWED[j]).Some? {
      FoundBelow(v, base, Member(FOLLOWED[j]), g);
    }
    forall j | 0 <= j < |CasesOf(v)| {
      FoundBelow(v, base, Case(j), g);
    }
  }

  lemma FoundHere(v: Value, base: seq<Step>, g: Gap)
    requires g.at == base && OwnGap(v, g)
    ensures Found(v, base, g)
  {
    assert g.at[|base|..] == [];
  }

  /** No gap is reported exactly when every component the visit can get to is complete. */
  lemma NoGapsExactly(v: Value, base: seq<Step>)
    ensures Gaps(v, base) == [] <==> CompleteThroughout(v)
  {
    hide Gaps, At, RequiredProperties;
    forall path | Gaps(v, base) == [] && At(v, path).Some? ensures Complete(At(v, path).value) {
      var w := At(v, path).value;
      if !Complete(w) {
        var kind := Kind(w).value;
        var g: Gap;
        if kind in RequiredProperties() {
          var prop :| prop in RequiredProperties()[kind] && Get(w.fields, prop) == None;
          g := Missing(base + path, kind, prop);
        } else {
          g := Unknown(base + path, kind);
        }
        assert g.at[|base|..] == path;
        GapsExactly(v, base, g);
        assert false;
      }
    }
    if Gaps(v, base) != [] {
      var g := Gaps(v, base)[0];
      assert g in Gaps(v, base);
      GapsExactly(v, base, g);
      var path := g.at[|base|..];
      assert OwnGap(At(v, path).value, g);
      assert At(v, path).Some? && !Complete(At(v, path).value);
    }
  }
}
