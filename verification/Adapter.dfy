/**
 What resolving a binding against the subject's Rust reports (`src/rust_adapter.rs`), and the
 binding itself (`src/grounding.rs`). The variants that never reach a harness carry no detail.
 */
module Adapter {
  import opened Basics

  datatype Fidelity = Definitional | Observed | Probed

  datatype BindCategory = CodeWorld | ModelWorld | RuntimeWorld | UiWorld

  datatype Binding = Binding(symbol: string, category: BindCategory, observable: string, fidelity: Fidelity)

  /** Where an item is declared; `path` is `None` when no path a harness writes can reach it. */
  datatype CodeMatch = CodeMatch(file: string, line: nat, path: Option<seq<string>>)

  datatype ParamMode = ByRef | ByValue

  datatype TraitQualification = TraitQualification(
    traitName: string, traitPath: Option<seq<string>>, typeName: string, typePath: Option<seq<string>>)

  datatype PredicateForm =
    | Function
    | Method(name: string, viaTrait: Option<TraitQualification>)
    | VariantTest(name: string, enumName: string, variant: string, enumPath: Option<seq<string>>)

  datatype Resolution =
    | Resolved(at: CodeMatch, params: seq<ParamMode>, form: PredicateForm)
    | Unresolved

  datatype ArgResolution = PrimitiveArg(name: string) | DeclaredArg(at: CodeMatch)

  datatype TypeResolution =
    | Primitive(name: string)
    | Declared(at: CodeMatch)
    | Applied(at: CodeMatch, args: seq<(string, ArgResolution)>)
    | NoType

  function FindBinding(bindings: seq<Binding>, symbol: string): (r: Option<nat>)
    ensures r.Some? ==> r.value < |bindings| && bindings[r.value].symbol == symbol
    ensures r.None? ==> forall b :: b in bindings ==> b.symbol != symbol
  {
    Position(bindings, (b: Binding) => b.symbol == symbol)
  }

  /** `bindings[k]` is the first binding of `symbol`. */
  predicate FirstBinding(bindings: seq<Binding>, symbol: string, k: nat) {
    k < |bindings| && bindings[k].symbol == symbol && forall j :: 0 <= j < k ==> bindings[j].symbol != symbol
  }

  lemma FirstBindingIs(bindings: seq<Binding>, symbol: string, k: nat)
    ensures FirstBinding(bindings, symbol, k) <==> FindBinding(bindings, symbol) == Some(k)
  {
  }
}
