/** The output records of the extractor: `Game`, `Board`, `Category` and
    `Clue` as JSON-ready values.  An optional field that is left undefined is
    None. */
module Records {
  import opened Base
  import opened Values

  const AUTHOR: string := "J! Archive"
  const COPYRIGHT: string := "Jeopardy!"

  datatype Clue = Clue(
    clue: string,
    answer: string,
    value: Number,
    wagerable: Option<bool>,
    longForm: Option<bool>,
    imageSrc: Option<string>)

  datatype Category = Category(name: string, note: string, clues: seq<Clue>)

  datatype Board = Board(categoryNames: seq<string>, categories: seq<Category>)

  datatype Game = Game(title: string, author: string, copyright: string, note: string, boards: seq<Board>)
}
