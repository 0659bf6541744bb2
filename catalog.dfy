/** The static movie catalog. */
module Catalog {

  /** A movie of the catalog (its poster URL is only rendered and is not kept). */
  datatype Movie = Movie(id: int, title: string)

  const Movies: seq<Movie> := [
    Movie(1, "Noites de Cab\U{ED}ria"),
    Movie(2, "Harakiri"),
    Movie(3, "Os Fuzis"),
    Movie(4, "O Homem de Palha"),
    Movie(5, "Ladr\U{F5}es de Bicicleta"),
    Movie(6, "A coisa"),
    Movie(7, "Vertigo"),
    Movie(8, "Onibaba"),
    Movie(9, "O Massacre da Serra El\U{E9}trica"),
    Movie(10, "Aliens 2")
  ]
}
