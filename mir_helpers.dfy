/** Reading a function's signature out of its body (src/mir_helpers.rs). */
module MirHelpers {
  import opened Mir

  /**
   * `get_fn_types`: the argument types are the declarations that follow local 0,
   * at most `argCount` of them; the return type is the declaration of local 0.
   * The source unwraps the first declaration, so a body without locals is excluded.
   */
  function GetFnTypes(body: Body): (r: (seq<Ty>, Ty))
    requires 1 <= |body.localDecls|
    ensures r.1 == body.localDecls[0].ty
    ensures |r.0| == Min(body.argCount, |body.localDecls| - 1)
    ensures forall i :: 0 <= i < |r.0| ==> r.0[i] == body.localDecls[i + 1].ty
  {
    var decls := body.localDecls[1..];
    var taken := decls[..Min(body.argCount, |decls|)];
    (seq(|taken|, i requires 0 <= i < |taken| => taken[i].ty), body.localDecls[0].ty)
  }

  function Min(a: nat, b: nat): nat {
    if a <= b then a else b
  }
}
