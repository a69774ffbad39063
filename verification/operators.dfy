/** The operators that join the conditions of a rule body, and their keywords. */
module ConditionOperators {

  /** The three operators of the rule language. */
  datatype ConditionOperator = And | Or | Not

  /** The source keyword of an operator. The match is exhaustive, so the
      out-of-range branch of the original switch has no counterpart here. */
  function GetKeyword(op: ConditionOperator): (k: string)
    ensures 1 <= |k| <= 3
    ensures op == And <==> |k| == 1
    ensures op == Or <==> |k| == 3
    ensures op == Not <==> |k| == 2
  {
    match op
    case And => "И"
    case Or => "ИЛИ"
    case Not => "НЕ"
  }

  /** Distinct operators have distinct keywords, so a keyword names one operator. */
  lemma KeywordsDistinct(a: ConditionOperator, b: ConditionOperator)
    requires GetKeyword(a) == GetKeyword(b)
    ensures a == b
  {
  }
}
