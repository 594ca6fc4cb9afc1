/** The shape of the chunk file messages: a data set is a list of games, a game a list of UCI move strings. */
module Proto {

  datatype ChessGame = ChessGame(moves: seq<string>)

  datatype ChessDataSet = ChessDataSet(games: seq<ChessGame>)
}
