/** Application-wide constants: the names of the configuration folder and
    of the database file, and the closed set of screens. */
module Constants {

  const AppPath: string := "todocli"
  const DbName: string := "todoclidb.db"

  /** The screens of the terminal interface; `Main` is the default one. */
  datatype Screen = Main | Add

  const DefaultScreen: Screen := Main
}
