/** The failures a terminal command ends in: each `TerminalException` the
    commands throw, with the name its message quotes, and the unchecked Java
    exceptions that escape them. */
module TerminalFaults {

  datatype Fault =
    | TargetNotDirectory(cmd: string, name: string)   // several sources, last argument no directory
    | CannotCopy(cmd: string, name: string)           // the copy itself failed
    | NoSuchSource(cmd: string, name: string)         // a source that does not exist
    | RmIOError(name: string)
    | RmIsDirectory(name: string)
    | RmNoSuch(name: string)
    | RmdirNotDirectory(name: string)
    | RmdirNotEmpty(name: string)
    | RmdirIOError(name: string)
    | RmdirNoSuch(name: string)
    | MkdirExists(name: string)
    | MkdirIOError(name: string)
    | LsNoSuch(name: string)
    | CatIsDirectory(name: string)
    | CatNoSuch(name: string)
    | CdNoSuch(name: string)
    | MoreUnsupportedInput                            // a pager key other than " ", "", "b", "q"
    | MoreCannotRead(name: string)
    | Halt                                            // `exit`
    | IndexOutOfBounds                                // ArrayIndexOutOfBoundsException
    | InvalidPath(path: string)                       // InvalidPathException from Paths.get
    | NoSuchElement                                   // Scanner.nextLine with no line left
    | NullPointer                                     // NullPointerException
}
