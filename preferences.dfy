/** How `StoryTellerAI.get_user_preferences` turns the user's answers into
    the story request, and how `generate_story` picks the prompt's input
    from it. The console reads are the function's inputs, already read; the
    genre number is the integer the user typed. */
module Preferences {
  import opened Text

  /** The genre menu, in the order it is listed (and numbered from 1). */
  const Genres: seq<string> := [
    "Fantasy", "Science Fiction", "Mystery", "Romance",
    "Adventure", "Horror", "Historical Fiction", "Comedy",
    "Thriller", "Drama", "Dystopian", "Paranormal",
    "Young Adult", "Children's Fiction", "Crime", "Superhero",
    "Western", "Slice of Life", "Fairy Tale", "Mythology",
    "Urban Fantasy", "Historical Romance", "Psychological Thriller",
    "Dark Fantasy", "Epic Fantasy", "Space Opera", "Post-Apocalyptic",
    "Steampunk", "Cyberpunk", "Detective Fiction", "Medical Fiction",
    "Political Fiction", "Satire", "Military Fiction", "Gothic",
    "Spy Fiction", "Legal Thriller", "Biographical Fiction",
    "Coming of Age", "Family Saga", "Time Travel", "Road Trip"
  ]

  /** The dictionary returned by `get_user_preferences`. */
  datatype Preferences = Preferences(concept: string, title: string, numParagraphs: int, language: string)

  /** An answer, or the `IndexError` raised by a genre number outside the list. */
  datatype Result<T> = Ok(value: T) | IndexError

  /** Python's `genres[idx]`: a negative index counts from the end. */
  function GenreAt(idx: int): (r: Result<string>)
    ensures r.Ok? <==> -|Genres| <= idx < |Genres|
    ensures r.Ok? ==> r.value in Genres
  {
    if 0 <= idx < |Genres| then Ok(Genres[idx])
    else if -|Genres| <= idx < 0 then Ok(Genres[idx + |Genres|])
    else IndexError
  }

  /** The concept made up for a chosen genre. */
  function GenreConcept(genre: string): (c: string)
    ensures |c| == |genre| + 17
    ensures c[..11] == "A story in " && c[|c| - 6..] == " genre"
    ensures c[11..|c| - 6] == genre
  {
    "A story in " + genre + " genre"
  }

  /** `get_user_preferences`: the concept is the stripped first answer; the
      title is asked for only when there is no concept; when there is neither,
      the genre menu is shown and the chosen genre makes the concept. The
      paragraph count and the language are passed through (the language is
      not stripped). */
  function GetUserPreferences(conceptInput: string, titleInput: string, genreNumber: int,
                              numParagraphs: int, language: string): (r: Result<Preferences>)
    ensures r.Ok? ==> r.value.numParagraphs == numParagraphs && r.value.language == language
    ensures r.Ok? ==> (r.value.concept == "" <==> r.value.title != "")
    ensures r.IndexError? <==>
      Strip(conceptInput) == "" && Strip(titleInput) == "" && !(-|Genres| < genreNumber <= |Genres|)
  {
    var concept := Strip(conceptInput);
    var title := if concept != "" then "" else Strip(titleInput);
    if concept == "" && title == "" then
      match GenreAt(genreNumber - 1)
      case Ok(genre) => Ok(Preferences(GenreConcept(genre), title, numParagraphs, language))
      case IndexError => IndexError
    else
      Ok(Preferences(concept, title, numParagraphs, language))
  }

  /** A concept given by the user is kept (stripped); the title is then never
      asked for and is empty, and neither the title nor the genre answer
      matters. */
  lemma ConceptGiven(conceptInput: string, titleInput: string, genreNumber: int,
                     numParagraphs: int, language: string, otherTitle: string, otherGenre: int)
    requires Strip(conceptInput) != ""
    ensures GetUserPreferences(conceptInput, titleInput, genreNumber, numParagraphs, language)
      == Ok(Preferences(Strip(conceptInput), "", numParagraphs, language))
    ensures GetUserPreferences(conceptInput, titleInput, genreNumber, numParagraphs, language)
      == GetUserPreferences(conceptInput, otherTitle, otherGenre, numParagraphs, language)
  {
  }

  /** Without a concept, a title given by the user is kept (stripped), the
      concept stays empty and the genre answer does not matter. */
  lemma TitleGiven(conceptInput: string, titleInput: string, genreNumber: int,
                   numParagraphs: int, language: string, otherGenre: int)
    requires Strip(conceptInput) == "" && Strip(titleInput) != ""
    ensures GetUserPreferences(conceptInput, titleInput, genreNumber, numParagraphs, language)
      == Ok(Preferences("", Strip(titleInput), numParagraphs, language))
    ensures GetUserPreferences(conceptInput, titleInput, genreNumber, numParagraphs, language)
      == GetUserPreferences(conceptInput, titleInput, otherGenre, numParagraphs, language)
  {
  }

  /** With neither a concept nor a title, menu entry `n` (numbered from 1)
      makes the concept "A story in <genre n> genre". */
  lemma GenreChosen(conceptInput: string, titleInput: string, n: int,
                    numParagraphs: int, language: string)
    requires Strip(conceptInput) == "" && Strip(titleInput) == ""
    requires 1 <= n <= |Genres|
    ensures GetUserPreferences(conceptInput, titleInput, n, numParagraphs, language)
      == Ok(Preferences("A story in " + Genres[n - 1] + " genre", "", numParagraphs, language))
  {
  }

  /** A genre number of 0 or below, down to -41, is read from the end of the
      list, as Python indexing does; 0 picks the last genre, "Road Trip". */
  lemma GenreFromEnd(conceptInput: string, titleInput: string, n: int,
                     numParagraphs: int, language: string)
    requires Strip(conceptInput) == "" && Strip(titleInput) == ""
    requires -|Genres| < n <= 0
    ensures GetUserPreferences(conceptInput, titleInput, n, numParagraphs, language)
      == Ok(Preferences("A story in " + Genres[n - 1 + |Genres|] + " genre", "", numParagraphs, language))
    ensures n == 0 ==> Genres[n - 1 + |Genres|] == "Road Trip"
  {
  }

  /** A concept or title typed by the user is kept without surrounding
      whitespace: stripping it again changes nothing. */
  lemma AnswersStripped(conceptInput: string, titleInput: string, genreNumber: int,
                        numParagraphs: int, language: string)
    requires Strip(conceptInput) != "" || Strip(titleInput) != ""
    ensures var r := GetUserPreferences(conceptInput, titleInput, genreNumber, numParagraphs, language);
      r.Ok? && Strip(r.value.concept) == r.value.concept && Strip(r.value.title) == r.value.title
  {
    StripIdempotent(conceptInput);
    StripIdempotent(titleInput);
    StripEmpty("");
  }

  /** The two prompt fields of `generate_story`. */
  datatype PromptInput = PromptInput(inputType: string, inputValue: string)

  /** `input_type` is "concept" when there is a concept and "title" otherwise;
      `input_value` is the matching field. */
  function PromptFields(p: Preferences): (f: PromptInput)
    ensures f.inputType == "concept" <==> p.concept != ""
    ensures f.inputType == "title" <==> p.concept == ""
    ensures f.inputValue in {p.concept, p.title}
    ensures p.concept != "" ==> f.inputValue == p.concept
    ensures p.concept == "" ==> f.inputValue == p.title
  {
    PromptInput(if p.concept != "" then "concept" else "title",
                if p.concept != "" then p.concept else p.title)
  }

  /** From the answers to the prompt: the input is never empty; it is the
      user's concept when one was given, else the user's title when one was
      given, else the concept made from the chosen genre. */
  lemma PromptFromAnswers(conceptInput: string, titleInput: string, genreNumber: int,
                          numParagraphs: int, language: string)
    requires GetUserPreferences(conceptInput, titleInput, genreNumber, numParagraphs, language).Ok?
    ensures var f := PromptFields(GetUserPreferences(conceptInput, titleInput, genreNumber, numParagraphs, language).value);
      f.inputValue != ""
      && (Strip(conceptInput) != "" ==> f == PromptInput("concept", Strip(conceptInput)))
      && (Strip(conceptInput) == "" && Strip(titleInput) != "" ==> f == PromptInput("title", Strip(titleInput)))
      && (Strip(conceptInput) == "" && Strip(titleInput) == "" ==>
            f == PromptInput("concept", GenreConcept(Genres[if genreNumber > 0 then genreNumber - 1 else genreNumber - 1 + |Genres|])))
  {
  }
}
