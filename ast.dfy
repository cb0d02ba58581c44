/**
 * The statements the parser produces and the interpreter runs, with the
 * constructors and fields that src/parser.rs builds and src/interpreter.rs
 * matches on. An assignment's value is the string its expression wraps.
 */
module Ast {

  datatype Statement =
    | Assignment(name: string, value: string)
    | SimpleFunctionDef(name: string, commandTemplate: string)
    | FunctionCall(name: string, args: seq<string>)
    | Command(command: string)

}
