/**
 * The query methods the agents choose between and the complexity labels an
 * LLM assigns to a question (agents/impl/auto_query_agent.py and
 * agents/impl/langgraph_agent.py read the same labels from its reply).
 */
module Routing {
  import opened Wrappers
  import opened Text

  datatype Method = ToGMethod | GraphRagMethod | HybridMethod
  {
    /** The name stored in results and compared against the question. */
    function Name(): string
    {
      match this
      case ToGMethod => "tog"
      case GraphRagMethod => "graphrag"
      case HybridMethod => "hybrid"
    }
  }

  const Simple: string := "simple"
  const Moderate: string := "moderate"
  const Complex: string := "complex"

  /** Distinct methods have distinct names, so a stored name identifies the method. */
  lemma MethodNamesDistinct(a: Method, b: Method)
    requires a.Name() == b.Name()
    ensures a == b
  {
  }

  /**
   * The label read from a complexity reply: "simple" is looked for first,
   * so a reply mentioning both words is simple; a reply with neither is
   * moderate.
   */
  function ComplexityOf(reply: string): (c: string)
    ensures c in {Simple, Moderate, Complex}
    ensures c == Simple <==> Contains(Lower(reply), Simple)
    ensures c == Complex <==> !Contains(Lower(reply), Simple) && Contains(Lower(reply), Complex)
  {
    var content := Lower(reply);
    if Contains(content, Simple) then Simple
    else if Contains(content, Complex) then Complex
    else Moderate
  }

  /** Reading back a bare label gives that label. */
  lemma ComplexityOfLabel(c: string)
    requires c in {Simple, Moderate, Complex}
    ensures ComplexityOf(c) == c
  {
    assert Lower(c) == c;
    if c == Simple {
      ContainsAt(c, Simple, 0);
    } else if c == Complex {
      assert !Contains(c, Simple) by { NotContainsWithoutHead(c, Simple); }
      ContainsAt(c, Complex, 0);
    } else {
      assert !Contains(c, Simple) by { NotContainsWithoutHead(c, Simple); }
      assert !Contains(c, Complex) by { NotContainsWithoutHead(c, Complex); }
    }
  }

  /** The method a question names outright, if any: ToG first, then GraphRAG, then hybrid. */
  function ExplicitMethod(lowered: string): (m: Option<Method>)
    ensures m == Some(ToGMethod) <==> Contains(lowered, "tog") || Contains(lowered, "思维图")
    ensures m.None? <==> (!Contains(lowered, "tog") && !Contains(lowered, "思维图")
      && !Contains(lowered, "graphrag") && !Contains(lowered, "混合") && !Contains(lowered, "hybrid"))
  {
    if Contains(lowered, "tog") || Contains(lowered, "思维图") then Some(ToGMethod)
    else if Contains(lowered, "graphrag") then Some(GraphRagMethod)
    else if Contains(lowered, "混合") || Contains(lowered, "hybrid") then Some(HybridMethod)
    else None
  }

  /** The method a complexity label implies when the question names none. */
  function ByComplexity(complexity: string): (m: Method)
    ensures m == GraphRagMethod <==> complexity == Simple
    ensures m == HybridMethod <==> complexity == Complex
  {
    if complexity == Simple then GraphRagMethod
    else if complexity == Complex then HybridMethod
    else ToGMethod
  }
}
