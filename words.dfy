/** The fixed word lists the matchers consult. The names corpus lists
    (male and female first names) are not literal; the matchers take them as
    sets supplied with the other external resources. */
module Words {

  const NounLabels: seq<string> := ["NN", "NNS"]

  /** Referential determiners. */
  const ReferentialDets: seq<string> := ["this", "that", "these", "those", "the"]

  const Pronouns: seq<string> := ["he", "she", "him", "her", "it", "his", "hers", "its", "they", "them", "their"]
  const MalePronouns: seq<string> := ["he", "him", "his"]
  const FemalePronouns: seq<string> := ["she", "her", "hers"]
  const NonItPronouns: seq<string> := ["he", "she", "him", "her", "his", "hers", "they", "them", "their"]
  const PossPronouns: seq<string> := ["his", "her", "hers", "their", "its"]
  const Reflexives: seq<string> := ["himself", "herself", "itself", "themselves", "theirselves"]
  const PluralPronouns: seq<string> := ["they", "them"]
  const ProForms: seq<string> := Pronouns + PossPronouns + Reflexives

  const MaleSgNouns: seq<string> := ["spokesman", "chairman", "man", "boy", "boyfriend", "brother", "dad", "dude", "father", "fiance", "gentleman", "god", "grandfather", "grandpa", "grandson", "groom", "himself", "husband", "king", "male", "mr", "nephew", "nephews", "priest", "prince", "son", "uncle", "waiter", "master", "widower", "waiter"]
  const ProbMaleSgNouns: seq<string> := ["football player", "knight", "blacksmith", "plumber", "bricklayer", "president", "paratrooper", "truck driver", "firefighter", "soldier", "chauffeur", "butcher", "gangster", "carpenter", "janitor", "skateboarder", "body builder", "captain", "CEO", "electrician", "golfer", "lieutenant", "pilot", "welder", "locksmith", "thief", "contractor", "engineer", "rancher", "police officer", "surfer", "farmer", "groundskeeper", "prime minister", "president", "programmer", "ranger", "undertaker", "coach", "surgeon", "philosopher", "funeral director", "porter", "accountant", "chef", "lawyer", "actor", "scientist", "comedian"]
  const TotalMaleNouns: seq<string> := MaleSgNouns + ProbMaleSgNouns

  const FemaleSgNouns: seq<string> := ["heroine", "spokeswoman", "chairwoman", "woman", "actress", "aunt", "bride", "daughter", "female", "fiancee", "girl", "girlfriend", "goddess", "granddaughter", "grandma", "grandmother", "lady", "mom", "mother", "mrs", "ms", "niece", "waitress", "priestess", "princess", "queen", "sister", "waitress", "mistress", "widow", "wife", "woman"]
  const ProbFemaleSgNouns: seq<string> := ["designer", "herbalist", "masseuse", "angel", "nutritionist", "sales sssistant", "speech therapist", "dental technician", "personal assistant", "interior decorator", "yoga instructor", "florist", "fashion designer", "gymnast", "typist", "figure skater", "flight attendant", "makeup artist", "shopper", "weaver", "caregiver", "librarian", "fairy", "model", "wedding planner", "nurse", "dressmaker", "elementary school teacher", "knitter", "fortune teller", "hair dresser", "wuilter", "babysitter", "ballet dancer", "feminist", "receptionist", "housekeeper", "house cleaner", "secretary", "seamstress", "witch", "beautician", "nanny", "midwife", "cheerleader", "maid"]
  const TotalFemaleNouns: seq<string> := FemaleSgNouns + ProbFemaleSgNouns

  const PersonNouns: seq<string> := TotalMaleNouns + TotalFemaleNouns

  /** The names corpus: the male and female first-name lists. */
  datatype NameLists = NameLists(maleNames: set<string>, femaleNames: set<string>)

  /** `person_names`, the concatenation of the two lists: a word is in it
      exactly when it is in either. */
  function PersonNames(names: NameLists): (r: set<string>)
    ensures forall w :: w in r <==> w in names.maleNames || w in names.femaleNames
  {
    names.maleNames + names.femaleNames
  }

  /** `pro_forms` keeps the order of its three parts and their duplicates:
      "his" and "its" each occur at two positions. */
  lemma ProFormsLayout()
    ensures |ProForms| == |Pronouns| + |PossPronouns| + |Reflexives| == 21
    ensures ProForms[..11] == Pronouns && ProForms[11..16] == PossPronouns && ProForms[16..] == Reflexives
    ensures ProForms[5] == ProForms[11] == "his" && ProForms[7] == ProForms[15] == "its"
  {
  }

  /** The gendered pronoun lists do not overlap, and both are pronouns. */
  lemma GenderedPronounsDisjoint()
    ensures forall w :: w in MalePronouns ==> w !in FemalePronouns && w in Pronouns
    ensures forall w :: w in FemalePronouns ==> w !in MalePronouns && w in Pronouns
  {
  }

  /** Neither spelling of "it" is barred as an antecedent of "it". */
  lemma ItIsNotNonIt()
    ensures "it" !in NonItPronouns && "It" !in NonItPronouns
  {
  }

  /** Plural pronouns are pronouns; reflexives are not. */
  lemma PluralAndReflexivePronouns()
    ensures forall w :: w in PluralPronouns ==> w in Pronouns
    ensures forall w :: w in Reflexives ==> w !in Pronouns
  {
  }

  /** The person-noun list is the union of the two gendered noun lists. */
  lemma PersonNounsAreGendered(w: string)
    ensures w in PersonNouns <==> w in TotalMaleNouns || w in TotalFemaleNouns
  {
  }
}
