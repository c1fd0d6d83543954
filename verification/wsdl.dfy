/** The WSDL document as the client sees it: a record of the facts it
    answers. Parsing the WSDL XML is not part of this model. */
module Wsdl {
  import opened Wrappers

  /** A dotted element path, outermost segment first. */
  type Path = seq<string>

  datatype WsdlDocument = WsdlDocument(
    present: bool,                         // WSDL::Document#present?: a document was given
    endpoint: Option<string>,
    namespace: Option<string>,
    elementFormDefault: string,
    soapActions: map<string, string>,      // operation symbol -> SOAPAction
    soapInputs: map<string, string>,       // operation symbol -> input element name
    typeNamespaces: seq<(Path, string)>,   // (path, namespace URI), in declaration order
    typeDefinitions: seq<(Path, string)>)  // (path, type name), in declaration order

  /** WSDL::Document#soap_input: the input element declared for an
      operation, or nil when the document declares none. */
  function SoapInput(w: WsdlDocument, operation: string): Option<string> {
    if operation in w.soapInputs then Some(w.soapInputs[operation]) else None
  }

  /** WSDL::Document#soap_action: the SOAPAction of an operation, or nil. */
  function SoapAction(w: WsdlDocument, operation: string): Option<string> {
    if operation in w.soapActions then Some(w.soapActions[operation]) else None
  }
}
