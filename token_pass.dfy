/**
  The per-class token pass of the replace-tokens task: it visits every ldc operand,
  every bootstrap argument of every invokedynamic and every field initialiser of a
  decoded class, rewrites the string ones in place and raises one change flag.
 */
module TokenPass {
  import opened Tokens
  import opened ClassModel
  import opened ClassTree

  /**
    The entry loop of one site: each entry's replace works on the previous step's
    output, and the flag goes up whenever an intermediate value differs from the
    site's original string (which is not written back until the loop ends).
   */
  method SubstituteSite(original: string, tokens: TokenMap) returns (value: string, changed: bool)
    ensures value == Substitute(original, tokens)
    ensures changed == Changed(original, tokens)
  {
    value := original;
    changed := false;
    for j := 0 to |tokens|
      invariant value == Substitute(original, tokens[..j])
      invariant changed <==> exists q | 1 <= q <= j :: Substitute(original, tokens[..q]) != original
    {
      assert tokens[..j + 1] == tokens[..j] + [tokens[j]];
      SubstituteSnoc(original, tokens[..j], tokens[j]);
      value := Replace(value, tokens[j].0, tokens[j].1);
      if value != original {
        changed := true;
      }
    }
    assert tokens[..|tokens|] == tokens;
  }

  method VisitLdc(n: LdcInsn, tokens: TokenMap) returns (changed: bool)
    modifies n
    ensures n.cst == RewriteConst(old(n.cst), tokens)
    ensures changed == ConstChanged(old(n.cst), tokens)
  {
    changed := false;
    if n.cst.Str? {
      var cst;
      cst, changed := SubstituteSite(n.cst.s, tokens);
      n.cst := Str(cst);
    }
  }

  /** Every string slot of the argument array is rewritten, whichever bootstrap method the call site names. */
  method VisitIndy(n: IndyInsn, tokens: TokenMap) returns (changed: bool)
    modifies n.bsmArgs
    ensures n.bsmArgs[..] == RewriteArgs(old(n.bsmArgs[..]), tokens)
    ensures changed == ArgsChanged(old(n.bsmArgs[..]), tokens)
  {
    ghost var before := n.bsmArgs[..];
    changed := false;
    for i := 0 to n.bsmArgs.Length
      invariant forall q | 0 <= q < i :: n.bsmArgs[q] == RewriteConst(before[q], tokens)
      invariant forall q | i <= q < n.bsmArgs.Length :: n.bsmArgs[q] == before[q]
      invariant changed <==> exists q | 0 <= q < i :: ConstChanged(before[q], tokens)
    {
      if n.bsmArgs[i].Str? {
        var value, ch := SubstituteSite(n.bsmArgs[i].s, tokens);
        if ch {
          changed := true;
        }
        n.bsmArgs[i] := Str(value);
      }
    }
    assert n.bsmArgs[..] == RewriteArgs(before, tokens);
  }

  method VisitInsn(insn: Insn, tokens: TokenMap) returns (changed: bool)
    modifies InsnFootprint(insn)
    ensures InsnView(insn) == RewriteInsn(old(InsnView(insn)), tokens)
    ensures changed == InsnChanged(old(InsnView(insn)), tokens)
  {
    match insn
    case Ldc(n) =>
      changed := VisitLdc(n, tokens);
    case Indy(n) =>
      changed := VisitIndy(n, tokens);
    case Other(_) =>
      changed := false;
  }

  method VisitMethod(m: MethodNode, tokens: TokenMap) returns (changed: bool)
    requires m.Valid()
    modifies m.Footprint()
    ensures m.View() == RewriteMethod(old(m.View()), tokens)
    ensures changed == MethodChanged(old(m.View()), tokens)
  {
    ghost var before := m.View().instructions;
    changed := false;
    for k := 0 to |m.instructions|
      invariant forall q | 0 <= q < k :: InsnView(m.instructions[q]) == RewriteInsn(before[q], tokens)
      invariant forall q | k <= q < |m.instructions| :: InsnView(m.instructions[q]) == before[q]
      invariant changed <==> exists q | 0 <= q < k :: InsnChanged(before[q], tokens)
    {
      label L:
      var ch := VisitInsn(m.instructions[k], tokens);
      forall q | 0 <= q < |m.instructions| && q != k
        ensures InsnView(m.instructions[q]) == old@L(InsnView(m.instructions[q]))
      {
        assert InsnFootprint(m.instructions[q]) !! InsnFootprint(m.instructions[k]);
      }
      if ch {
        changed := true;
      }
    }
    assert m.View().instructions == RewriteMethod(old(m.View()), tokens).instructions;
  }

  method VisitField(f: FieldNode, tokens: TokenMap) returns (changed: bool)
    modifies f
    ensures f.View() == RewriteField(old(f.View()), tokens)
    ensures changed == FieldChanged(old(f.View()), tokens)
  {
    changed := false;
    if f.value.Some? && f.value.value.Str? {
      var value;
      value, changed := SubstituteSite(f.value.value.s, tokens);
      f.value := Some(Str(value));
    }
  }

  /** One step of the method loop: method i is rewritten, and no other method is written. */
  method VisitMethodAt(c: ClassNode, i: nat, tokens: TokenMap) returns (changed: bool)
    requires c.Valid() && i < |c.methods|
    modifies c.methods[i].Footprint()
    ensures c.methods[i].View() == RewriteMethod(old(c.methods[i].View()), tokens)
    ensures changed == MethodChanged(old(c.methods[i].View()), tokens)
    ensures forall q | 0 <= q < |c.methods| && q != i :: c.methods[q].View() == old(c.methods[q].View())
  {
    changed := VisitMethod(c.methods[i], tokens);
    forall q | 0 <= q < |c.methods| && q != i
      ensures c.methods[q].View() == old(c.methods[q].View())
    {
      assert c.methods[q].Footprint() !! c.methods[i].Footprint();
    }
  }

  /** Methods in declaration order, each instruction in list order. */
  method VisitMethods(c: ClassNode, tokens: TokenMap) returns (changed: bool)
    requires c.Valid()
    modifies c.MethodsFootprint()
    ensures forall i | 0 <= i < |c.methods| :: c.methods[i].View() == RewriteMethod(old(c.methods[i].View()), tokens)
    ensures changed <==> exists i | 0 <= i < |c.methods| :: MethodChanged(old(c.methods[i].View()), tokens)
    ensures forall j | 0 <= j < |c.fields| :: c.fields[j].value == old(c.fields[j].value)
  {
    ghost var before := c.View().methods;
    c.FieldsOutsideMethods();
    changed := false;
    for i := 0 to |c.methods|
      invariant forall j | 0 <= j < |c.fields| :: c.fields[j].value == old(c.fields[j].value)
      invariant forall q | 0 <= q < i :: c.methods[q].View() == RewriteMethod(before[q], tokens)
      invariant forall q | i <= q < |c.methods| :: c.methods[q].View() == before[q]
      invariant changed <==> exists q | 0 <= q < i :: MethodChanged(before[q], tokens)
    {
      var ch := VisitMethodAt(c, i, tokens);
      if ch {
        changed := true;
      }
    }
  }

  /** Fields in declaration order. */
  method VisitFields(c: ClassNode, tokens: TokenMap) returns (changed: bool)
    requires c.Valid()
    modifies c.FieldsFootprint()
    ensures forall j | 0 <= j < |c.fields| :: c.fields[j].View() == RewriteField(old(c.fields[j].View()), tokens)
    ensures changed <==> exists j | 0 <= j < |c.fields| :: FieldChanged(old(c.fields[j].View()), tokens)
    ensures forall i | 0 <= i < |c.methods| :: c.methods[i].View() == old(c.methods[i].View())
  {
    ghost var before := seq(|c.fields|, j requires 0 <= j < |c.fields| reads c.FieldsFootprint() => c.fields[j].View());
    changed := false;
    for j := 0 to |c.fields|
      invariant forall q | 0 <= q < j :: c.fields[q].View() == RewriteField(before[q], tokens)
      invariant forall q | j <= q < |c.fields| :: c.fields[q].View() == before[q]
      invariant changed <==> exists q | 0 <= q < j :: FieldChanged(before[q], tokens)
    {
      var ch := VisitField(c.fields[j], tokens);
      if ch {
        changed := true;
      }
    }
  }

  /**
    The whole pass over one class: methods, then fields. The flag is never reset,
    so it ends as the OR over all sites.
   */
  method ReplaceTokens(c: ClassNode, tokens: TokenMap) returns (hasReplacements: bool)
    requires c.Valid()
    modifies c.Footprint()
    ensures c.View() == RewriteClass(old(c.View()), tokens)
    ensures hasReplacements == ClassChanged(old(c.View()), tokens)
  {
    ghost var before := c.View();
    assert forall i | 0 <= i < |c.methods| :: c.methods[i].View() == before.methods[i];
    assert forall j | 0 <= j < |c.fields| :: c.fields[j].View() == before.fields[j];
    var methodsChanged := VisitMethods(c, tokens);
    var fieldsChanged := VisitFields(c, tokens);
    hasReplacements := methodsChanged || fieldsChanged;
    assert c.View().methods == RewriteClass(before, tokens).methods;
    assert c.View().fields == RewriteClass(before, tokens).fields;
  }
}
