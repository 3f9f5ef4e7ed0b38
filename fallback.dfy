/** The offline answers used when the remote model call fails: an ordered
    keyword table scanned first-match-wins, then one generic recipe. */
module Fallback {
  import opened Text

  datatype Option<T> = None | Some(value: T)

  /** The canned answers of the keyword table. */
  const HelloReply := "Bonjour ! 👋 Je suis SavouraBot, votre assistant de recettes africaines 🍛"
  const RecipeReply := "🍛 Essayez le riz sauce tomate : oignon + tomate + huile + sel, laissez mijoter et servez avec du riz."
  const JollofReply := "Le Jollof Rice : oignons, tomate, riz, épices, laissez cuire à feu moyen 30 min."
  const BeansReply := "Haricots africains : faites cuire avec oignon, ail, tomate, sel et un peu d’huile."
  const RiceReply := "Riz simple : rincez le riz, ajoutez 2 volumes d’eau salée, cuire jusqu’à absorption."
  const ChickenReply := "Poulet en sauce : faites revenir le poulet, ajoutez tomate, oignon, ail et laissez mijoter."

  /** The keyword table, in the insertion order of `responses_fallback`. */
  const Table: seq<(string, string)> := [
    ("bonjour", HelloReply),
    ("recette", RecipeReply),
    ("jollof", JollofReply),
    ("haricot", BeansReply),
    ("riz", RiceReply),
    ("poulet", ChickenReply)
  ]

  /** The reply when no keyword of the table occurs in the message. */
  const GenericReply: string :=
    "🍛 Voici une recette simple :\n\n" +
    "👉 Riz aux haricots africain\n" +
    "- Haricots + oignon + tomate\n" +
    "- Un peu d’huile et de sel\n" +
    "- Servir avec du riz chaud\n\n" +
    "Astuce : ajoutez du piment ou du poisson fumé 😉"

  /** Keyword number `i` of `table` occurs in `key`. */
  predicate Matches(table: seq<(string, string)>, key: string, i: int)
    requires 0 <= i < |table|
  {
    Contains(key, table[i].0)
  }

  /** The position of the first keyword at or after `from` that occurs in
      `key`, or `None` when none does. */
  function FirstMatchFrom(table: seq<(string, string)>, key: string, from: nat): (r: Option<nat>)
    requires from <= |table|
    ensures r.Some? ==> from <= r.value < |table| && Matches(table, key, r.value)
    ensures r.Some? ==> forall j :: from <= j < r.value ==> !Matches(table, key, j)
    ensures r.None? ==> forall j :: from <= j < |table| ==> !Matches(table, key, j)
    decreases |table| - from
  {
    if from == |table| then None
    else if Matches(table, key, from) then Some(from)
    else FirstMatchFrom(table, key, from + 1)
  }

  /** The reply of the failure path for the cache key `key`. */
  function FallbackReply(key: string): string {
    match FirstMatchFrom(Table, key, 0)
    case Some(i) => Table[i].1
    case None => GenericReply
  }

  /** The `for` loop over the table with its early return, followed by the
      generic reply. */
  method KeywordFallback(key: string) returns (reply: string)
    ensures reply == FallbackReply(key)
  {
    var i := 0;
    while i < |Table|
      invariant 0 <= i <= |Table|
      invariant FirstMatchFrom(Table, key, i) == FirstMatchFrom(Table, key, 0)
    {
      var (keyword, answer) := Table[i];
      if Contains(key, keyword) {
        return answer;
      }
      i := i + 1;
    }
    return GenericReply;
  }

  /** The first keyword of the table that occurs in the key decides the
      reply: later keywords that also occur do not matter. */
  lemma FirstMatchWins(key: string, i: int)
    requires 0 <= i < |Table| && Matches(Table, key, i)
    requires forall j :: 0 <= j < i ==> !Matches(Table, key, j)
    ensures FallbackReply(key) == Table[i].1
  {
  }

  /** With no keyword of the table in the key, the reply is the generic one. */
  lemma NoMatchGeneric(key: string)
    requires forall j :: 0 <= j < |Table| ==> !Matches(Table, key, j)
    ensures FallbackReply(key) == GenericReply
  {
  }

  /** Every reply of the failure path is a non-empty string from the table
      or the generic reply. */
  lemma FallbackReplyNonEmpty(key: string)
    ensures FallbackReply(key) != []
    ensures FallbackReply(key) == GenericReply ||
            exists i :: 0 <= i < |Table| && FallbackReply(key) == Table[i].1
  {
  }

  /** A message naming both rice and chicken, and none of the keywords
      before them, gets the rice answer: "riz" comes before "poulet" in the
      table. */
  lemma RiceBeforeChicken(key: string)
    requires Contains(key, "riz") && Contains(key, "poulet")
    requires forall j :: 0 <= j < 4 ==> !Matches(Table, key, j)
    ensures Matches(Table, key, 4) && Matches(Table, key, 5)
    ensures FallbackReply(key) == RiceReply
  {
    FirstMatchWins(key, 4);
  }

  /** The same for a message with neither a 'c' nor a 'j', which rules out
      the first four keywords. */
  lemma RiceBeforeChickenWithoutCOrJ(key: string)
    requires Contains(key, "riz") && Contains(key, "poulet")
    requires 'c' !in key && 'j' !in key
    ensures FallbackReply(key) == RiceReply
  {
    EarlierKeywordsAbsent(key);
    RiceBeforeChicken(key);
  }

  /** Without a 'c' or a 'j', none of the first four keywords occurs. */
  lemma EarlierKeywordsAbsent(key: string)
    requires 'c' !in key && 'j' !in key
    ensures forall j :: 0 <= j < 4 ==> !Matches(Table, key, j)
  {
    MissingChar(key, "bonjour", 'j');
    MissingChar(key, "recette", 'c');
    MissingChar(key, "jollof", 'j');
    MissingChar(key, "haricot", 'c');
  }
}
