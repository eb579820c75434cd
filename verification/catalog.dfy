/**
 * The fixed question catalog of the assessment form
 * (components/assessment-form.tsx). Option lists hold the submitted values;
 * display labels and the free-text placeholder are presentation only.
 */
module Catalog {
  import opened Wrappers

  datatype Kind = Radio | Checkbox | Textarea | Select

  datatype Question = Question(id: string, title: string, kind: Kind, options: seq<string>)

  datatype CatalogError = OutOfRange(index: int)

  const Questions: seq<Question> := [
    Question("track", "What's your primary focus?", Radio,
      ["faang", "startup", "both"]),
    Question("skillLevel", "What's your current skill level?", Radio,
      ["beginner", "intermediate", "advanced"]),
    Question("technologies", "What technologies do you already know?", Checkbox,
      ["JavaScript", "Python", "Java", "C++", "React", "Node.js",
       "TypeScript", "Go", "Rust", "Swift", "Kotlin", "PHP"]),
    Question("dsaInvolvement", "What's your current involvement in DSA?", Radio,
      ["none", "basic", "intermediate", "advanced"]),
    Question("currentProjects", "Tell us about your current projects", Textarea, []),
    Question("experience", "Do you have professional experience?", Radio,
      ["none", "internship", "1-2", "3+"]),
    Question("timeCommitment", "How much time can you dedicate weekly?", Radio,
      ["5-10", "10-20", "20-30", "30+"]),
    Question("timeline", "When do you want to complete your preparation?", Select,
      ["1month", "3months", "6months", "1year", "flexible"]),
    Question("targetCompanies", "Which companies are you targeting?", Checkbox,
      ["FAANG (Meta, Apple, Amazon, Netflix, Google)", "Product-based companies",
       "Startups", "Open-source contribution", "Freelancing", "Remote companies"]),
    Question("integrations", "Would you like to integrate your profiles?", Checkbox,
      ["GitHub - For code analysis and contribution tracking",
       "LinkedIn - For job opportunities and networking",
       "YouTube - For personalized learning content"])
  ]

  /** The ids of all questions. */
  function Ids(): set<string>
  {
    set i | 0 <= i < |Questions| :: Questions[i].id
  }

  /** `questions[index]`, failing with OutOfRange outside the catalog. */
  function QuestionAt(index: int): (r: Result<Question, CatalogError>)
    ensures r.Ok? <==> 0 <= index < |Questions|
    ensures r.Ok? ==> r.value == Questions[index] && r.value.id in Ids()
    ensures r.Err? ==> r.error == OutOfRange(index)
  {
    if 0 <= index < |Questions| then Ok(Questions[index]) else Err(OutOfRange(index))
  }

  /** The catalog has ten questions with pairwise distinct ids; exactly the
      free-text question has no options, and no option list repeats a value. */
  lemma CatalogShape()
    ensures |Questions| == 10
    ensures forall i, j :: 0 <= i < j < |Questions| ==> Questions[i].id != Questions[j].id
    ensures forall i :: 0 <= i < |Questions| ==>
      (Questions[i].kind == Textarea <==> |Questions[i].options| == 0)
    ensures forall i, a, b :: 0 <= i < |Questions| && 0 <= a < b < |Questions[i].options| ==>
      Questions[i].options[a] != Questions[i].options[b]
  {
  }
}
