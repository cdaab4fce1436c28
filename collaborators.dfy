/** The helpers the classifier calls but whose code lies outside this model.
    Each one is a total function of the node it is given; the classifier
    depends on nothing else about them. */
module Collaborators {
  import opened Ast

  datatype Env = Env(
    /** resolveToValue: the node that defines the value of an expression,
        or the node itself when nothing more specific is found. */
    resolveToValue: Node -> Node,
    /** isReactCreateClassCall: a `React.createClass({...})` call. */
    isReactCreateClassCall: Node -> bool,
    /** isReactComponentClass: a class extending `React.Component`. */
    isReactComponentClass: Node -> bool,
    /** isReactCreateElementCall: a `React.createElement(...)` call. */
    isReactCreateElementCall: Node -> bool,
    /** isReactCloneElementCall: a `React.cloneElement(...)` call. */
    isReactCloneElementCall: Node -> bool,
    /** isReactChildrenElementCall: a `React.Children.*(...)` call. */
    isReactChildrenElementCall: Node -> bool,
    /** getPropertyValuePath: the value of the entry of an object literal
        with the given name, if there is one. */
    getPropertyValuePath: (Node, Option<string>) -> Option<Node>
  )
}
