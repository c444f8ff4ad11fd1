/** Whose value wins when configurations are merged or overlaid
    (pkg/config/types/types.go), stated on the fields of the result. */
module ConfigPrecedence {
  import opened Text
  import opened ConfigOverlay

  // ---------- what is chosen: the second value if it is set, else the first

  predicate TextChosen(i: string, e: string, r: string) { (e != "" ==> r == e) && (e == "" ==> r == i) }
  predicate NumberChosen(i: int, e: int, r: int) { (e != 0 ==> r == e) && (e == 0 ==> r == i) }
  predicate PointerChosen(i: Option<bool>, e: Option<bool>, r: Option<bool>) { (e.Some? ==> r == e) && (e.None? ==> r == i) }

  predicate ProxyChosen(i: Proxy, e: Proxy, r: Proxy) {
    && TextChosen(i.httpsProxy, e.httpsProxy, r.httpsProxy) && TextChosen(i.httpProxy, e.httpProxy, r.httpProxy)
    && TextChosen(i.noProxy, e.noProxy, r.noProxy)
  }

  predicate CertificateInformationChosen(
    i: CertificateInformation, e: CertificateInformation, r: CertificateInformation) {
    && TextChosen(i.country, e.country, r.country) && TextChosen(i.org, e.org, r.org)
    && TextChosen(i.orgUnit, e.orgUnit, r.orgUnit) && TextChosen(i.state, e.state, r.state)
  }

  predicate NodeChosen(i: Node, e: Node, r: Node) {
    && TextChosen(i.memory, e.memory, r.memory) && NumberChosen(i.cpus, e.cpus, r.cpus)
    && TextChosen(i.storage, e.storage, r.storage)
  }

  predicate LibvirtProviderChosen(i: LibvirtProvider, e: LibvirtProvider, r: LibvirtProvider) {
    && TextChosen(i.sessionURI, e.sessionURI, r.sessionURI) && TextChosen(i.sshKey, e.sshKey, r.sshKey)
    && TextChosen(i.storagePool, e.storagePool, r.storagePool) && TextChosen(i.network, e.network, r.network)
    && NodeChosen(i.controlPlaneNode, e.controlPlaneNode, r.controlPlaneNode)
    && NodeChosen(i.workerNode, e.workerNode, r.workerNode)
    && TextChosen(i.bootVolumeName, e.bootVolumeName, r.bootVolumeName)
    && TextChosen(i.bootVolumeContainerImagePath, e.bootVolumeContainerImagePath, r.bootVolumeContainerImagePath)
    && TextChosen(i.slirpSubnet, e.slirpSubnet, r.slirpSubnet)
    && PointerChosen(i.secureBootPtr, e.secureBootPtr, r.secureBootPtr) && PointerChosen(i.smmPtr, e.smmPtr, r.smmPtr)
  }

  predicate OciInstanceShapeChosen(i: OciInstanceShape, e: OciInstanceShape, r: OciInstanceShape) {
    && TextChosen(i.shape, e.shape, r.shape) && NumberChosen(i.ocpus, e.ocpus, r.ocpus)
    && TextChosen(i.bootVolumeSize, e.bootVolumeSize, r.bootVolumeSize)
  }

  predicate LoadBalancerChosen(i: LoadBalancer, e: LoadBalancer, r: LoadBalancer) {
    && TextChosen(i.subnet1, e.subnet1, r.subnet1) && TextChosen(i.subnet2, e.subnet2, r.subnet2)
  }

  predicate OciImageSetChosen(i: OciImageSet, e: OciImageSet, r: OciImageSet) {
    && TextChosen(i.amd64, e.amd64, r.amd64) && TextChosen(i.arm64, e.arm64, r.arm64)
  }

  predicate OciProviderChosen(i: OciProvider, e: OciProvider, r: OciProvider) {
    && TextChosen(i.kubeConfigPath, e.kubeConfigPath, r.kubeConfigPath)
    && TextChosen(i.compartment, e.compartment, r.compartment) && TextChosen(i.profile, e.profile, r.profile)
    && TextChosen(i.namespace, e.namespace, r.namespace)
    && OciInstanceShapeChosen(i.controlPlaneShape, e.controlPlaneShape, r.controlPlaneShape)
    && OciImageSetChosen(i.images, e.images, r.images)
    && OciInstanceShapeChosen(i.workerShape, e.workerShape, r.workerShape)
    && PointerChosen(i.selfManagedPtr, e.selfManagedPtr, r.selfManagedPtr)
    && LoadBalancerChosen(i.loadBalancer, e.loadBalancer, r.loadBalancer) && TextChosen(i.vcn, e.vcn, r.vcn)
    && TextChosen(i.imageBucket, e.imageBucket, r.imageBucket) && ProxyChosen(i.proxy, e.proxy, r.proxy)
  }

  predicate OvirtCsiDriverChosen(i: OvirtCsiDriver, e: OvirtCsiDriver, r: OvirtCsiDriver) {
    && TextChosen(i.configMapName, e.configMapName, r.configMapName)
    && TextChosen(i.controllerPluginName, e.controllerPluginName, r.controllerPluginName)
    && TextChosen(i.csiDriverName, e.csiDriverName, r.csiDriverName)
    && PointerChosen(i.installPtr, e.installPtr, r.installPtr) && TextChosen(i.namespace, e.namespace, r.namespace)
    && TextChosen(i.nodePluginName, e.nodePluginName, r.nodePluginName)
    && TextChosen(i.secretName, e.secretName, r.secretName)
  }

  predicate NamespacedNameChosen(i: NamespacedName, e: NamespacedName, r: NamespacedName) {
    && TextChosen(i.name, e.name, r.name) && TextChosen(i.namespace, e.namespace, r.namespace)
  }

  predicate OlvmOckChosen(i: OlvmOck, e: OlvmOck, r: OlvmOck) {
    && TextChosen(i.diskName, e.diskName, r.diskName) && TextChosen(i.diskSize, e.diskSize, r.diskSize)
    && TextChosen(i.storageDomainName, e.storageDomainName, r.storageDomainName)
  }

  predicate OlvmAPIServerChosen(i: OlvmAPIServer, e: OlvmAPIServer, r: OlvmAPIServer) {
    && NamespacedNameChosen(i.caConfigMap, e.caConfigMap, r.caConfigMap)
    && NamespacedNameChosen(i.credentialsSecret, e.credentialsSecret, r.credentialsSecret)
    && PointerChosen(i.insecureSkipTLSVerifyPtr, e.insecureSkipTLSVerifyPtr, r.insecureSkipTLSVerifyPtr)
    && TextChosen(i.serverCA, e.serverCA, r.serverCA) && TextChosen(i.serverCAPath, e.serverCAPath, r.serverCAPath)
    && TextChosen(i.serverURL, e.serverURL, r.serverURL)
  }

  predicate OlvmNetworkChosen(i: OlvmNetwork, e: OlvmNetwork, r: OlvmNetwork) {
    && TextChosen(i.networkName, e.networkName, r.networkName) && TextChosen(i.vnicName, e.vnicName, r.vnicName)
    && TextChosen(i.vnicProfileName, e.vnicProfileName, r.vnicProfileName)
  }

  predicate OlvmMachineCpuTopologyChosen(
    i: OlvmMachineCpuTopology, e: OlvmMachineCpuTopology, r: OlvmMachineCpuTopology) {
    && NumberChosen(i.cores, e.cores, r.cores) && NumberChosen(i.sockets, e.sockets, r.sockets)
    && NumberChosen(i.threads, e.threads, r.threads)
  }

  predicate OlvmMachineCpuChosen(i: OlvmMachineCpu, e: OlvmMachineCpu, r: OlvmMachineCpu) {
    && TextChosen(i.architecture, e.architecture, r.architecture)
    && OlvmMachineCpuTopologyChosen(i.topology, e.topology, r.topology)
  }

  predicate OlvmIPV4Chosen(i: OlvmIPV4, e: OlvmIPV4, r: OlvmIPV4) {
    && TextChosen(i.subnet, e.subnet, r.subnet) && TextChosen(i.ipAddresses, e.ipAddresses, r.ipAddresses)
  }

  predicate OlvmIPV6Chosen(i: OlvmIPV6, e: OlvmIPV6, r: OlvmIPV6) {
    && PointerChosen(i.autoConfPtr, e.autoConfPtr, r.autoConfPtr) && TextChosen(i.ipAddresses, e.ipAddresses, r.ipAddresses)
  }

  predicate OlvmVirtualMachineNetworkChosen(
    i: OlvmVirtualMachineNetwork, e: OlvmVirtualMachineNetwork, r: OlvmVirtualMachineNetwork) {
    && TextChosen(i.gateway, e.gateway, r.gateway) && TextChosen(i.interface, e.interface, r.interface)
    && TextChosen(i.interfaceType, e.interfaceType, r.interfaceType) && OlvmIPV4Chosen(i.ipv4, e.ipv4, r.ipv4)
    && OlvmIPV6Chosen(i.ipv6, e.ipv6, r.ipv6)
  }

  predicate OlvmVirtualMachineChosen(i: OlvmVirtualMachine, e: OlvmVirtualMachine, r: OlvmVirtualMachine) {
    && OlvmMachineCpuChosen(i.cpu, e.cpu, r.cpu) && TextChosen(i.memory, e.memory, r.memory)
    && OlvmVirtualMachineNetworkChosen(i.network, e.network, r.network)
  }

  predicate OlvmMachineChosen(i: OlvmMachine, e: OlvmMachine, r: OlvmMachine) {
    && OlvmNetworkChosen(i.olvmNetwork, e.olvmNetwork, r.olvmNetwork)
    && TextChosen(i.olvmOvirtClusterName, e.olvmOvirtClusterName, r.olvmOvirtClusterName)
    && OlvmVirtualMachineChosen(i.virtualMachine, e.virtualMachine, r.virtualMachine)
    && TextChosen(i.vmTemplateName, e.vmTemplateName, r.vmTemplateName)
  }

  predicate OlvmLocalAPIEndpointChosen(i: OlvmLocalAPIEndpoint, e: OlvmLocalAPIEndpoint, r: OlvmLocalAPIEndpoint) {
    && NumberChosen(i.bindPort, e.bindPort, r.bindPort)
    && TextChosen(i.advertiseAddress, e.advertiseAddress, r.advertiseAddress)
  }

  predicate ByoProviderChosen(i: ByoProvider, e: ByoProvider, r: ByoProvider) {
    && PointerChosen(i.automaticTokenCreationPtr, e.automaticTokenCreationPtr, r.automaticTokenCreationPtr)
    && TextChosen(i.networkInterface, e.networkInterface, r.networkInterface)
  }

  predicate OlvmProviderChosen(i: OlvmProvider, e: OlvmProvider, r: OlvmProvider) {
    && OlvmMachineChosen(i.controlPlaneMachine, e.controlPlaneMachine, r.controlPlaneMachine)
    && OvirtCsiDriverChosen(i.csiDriver, e.csiDriver, r.csiDriver)
    && TextChosen(i.datacenterName, e.datacenterName, r.datacenterName)
    && OlvmLocalAPIEndpointChosen(i.localAPIEndpoint, e.localAPIEndpoint, r.localAPIEndpoint)
    && TextChosen(i.namespace, e.namespace, r.namespace)
    && OlvmAPIServerChosen(i.olvmAPIServer, e.olvmAPIServer, r.olvmAPIServer)
    && OlvmOckChosen(i.olvmOck, e.olvmOck, r.olvmOck) && ProxyChosen(i.proxy, e.proxy, r.proxy)
    && PointerChosen(i.selfManagedPtr, e.selfManagedPtr, r.selfManagedPtr)
    && OlvmMachineChosen(i.workerMachine, e.workerMachine, r.workerMachine)
  }

  predicate ProvidersChosen(i: Providers, e: Providers, r: Providers) {
    && LibvirtProviderChosen(i.libvirt, e.libvirt, r.libvirt) && OciProviderChosen(i.oci, e.oci, r.oci)
    && ByoProviderChosen(i.byo, e.byo, r.byo) && OlvmProviderChosen(i.olvm, e.olvm, r.olvm)
  }

  predicate EphemeralClusterConfigChosen(
    i: EphemeralClusterConfig, e: EphemeralClusterConfig, r: EphemeralClusterConfig) {
    && TextChosen(i.name, e.name, r.name) && NodeChosen(i.node, e.node, r.node)
  }

  predicate ConfigChosen(i: Config, e: Config, r: Config) {
    && ProvidersChosen(i.providers, e.providers, r.providers) && TextChosen(i.kubeConfig, e.kubeConfig, r.kubeConfig)
    && TextChosen(i.autoStartUI, e.autoStartUI, r.autoStartUI) && ProxyChosen(i.proxy, e.proxy, r.proxy)
    && NumberChosen(i.kubeAPIServerBindPort, e.kubeAPIServerBindPort, r.kubeAPIServerBindPort)
    && NumberChosen(i.kubeAPIServerBindPortAlt, e.kubeAPIServerBindPortAlt, r.kubeAPIServerBindPortAlt)
    && TextChosen(i.podSubnet, e.podSubnet, r.podSubnet) && TextChosen(i.serviceSubnet, e.serviceSubnet, r.serviceSubnet)
    && TextChosen(i.registry, e.registry, r.registry)
    && CertificateInformationChosen(i.certificateInformation, e.certificateInformation, r.certificateInformation)
    && TextChosen(i.osTag, e.osTag, r.osTag) && TextChosen(i.osRegistry, e.osRegistry, r.osRegistry)
    && TextChosen(i.kubeProxyMode, e.kubeProxyMode, r.kubeProxyMode)
    && TextChosen(i.bootVolumeContainerImage, e.bootVolumeContainerImage, r.bootVolumeContainerImage)
    && TextChosen(i.cni, e.cni, r.cni) && PointerChosen(i.headlessPtr, e.headlessPtr, r.headlessPtr)
    && PointerChosen(i.catalogPtr, e.catalogPtr, r.catalogPtr)
    && PointerChosen(i.communityCatalogPtr, e.communityCatalogPtr, r.communityCatalogPtr)
    && EphemeralClusterConfigChosen(i.ephemeralConfig, e.ephemeralConfig, r.ephemeralConfig)
    && PointerChosen(i.quietPtr, e.quietPtr, r.quietPtr) && TextChosen(i.kubeVersion, e.kubeVersion, r.kubeVersion)
    && TextChosen(i.sshPublicKeyPath, e.sshPublicKeyPath, r.sshPublicKeyPath)
    && TextChosen(i.sshPublicKey, e.sshPublicKey, r.sshPublicKey) && TextChosen(i.password, e.password, r.password)
    && TextChosen(i.extraIgnitionInline, e.extraIgnitionInline, r.extraIgnitionInline)
    && TextChosen(i.extraIgnition, e.extraIgnition, r.extraIgnition)
  }

  predicate ClusterConfigChosen(i: ClusterConfig, e: ClusterConfig, r: ClusterConfig) {
    && TextChosen(i.workingDirectory, e.workingDirectory, r.workingDirectory) && TextChosen(i.name, e.name, r.name)
    && TextChosen(i.provider, e.provider, r.provider) && ProvidersChosen(i.providers, e.providers, r.providers)
    && ProxyChosen(i.proxy, e.proxy, r.proxy) && TextChosen(i.registry, e.registry, r.registry)
    && NumberChosen(i.workerNodes, e.workerNodes, r.workerNodes)
    && NumberChosen(i.controlPlaneNodes, e.controlPlaneNodes, r.controlPlaneNodes)
    && NumberChosen(i.kubeAPIServerBindPort, e.kubeAPIServerBindPort, r.kubeAPIServerBindPort)
    && NumberChosen(i.kubeAPIServerBindPortAlt, e.kubeAPIServerBindPortAlt, r.kubeAPIServerBindPortAlt)
    && TextChosen(i.virtualIp, e.virtualIp, r.virtualIp) && TextChosen(i.loadBalancer, e.loadBalancer, r.loadBalancer)
    && TextChosen(i.podSubnet, e.podSubnet, r.podSubnet) && TextChosen(i.serviceSubnet, e.serviceSubnet, r.serviceSubnet)
    && CertificateInformationChosen(i.certificateInformation, e.certificateInformation, r.certificateInformation)
    && TextChosen(i.osTag, e.osTag, r.osTag) && TextChosen(i.osRegistry, e.osRegistry, r.osRegistry)
    && TextChosen(i.kubeProxyMode, e.kubeProxyMode, r.kubeProxyMode)
    && TextChosen(i.bootVolumeContainerImage, e.bootVolumeContainerImage, r.bootVolumeContainerImage)
    && TextChosen(i.cni, e.cni, r.cni) && PointerChosen(i.headlessPtr, e.headlessPtr, r.headlessPtr)
    && PointerChosen(i.catalogPtr, e.catalogPtr, r.catalogPtr)
    && PointerChosen(i.communityCatalogPtr, e.communityCatalogPtr, r.communityCatalogPtr)
    && r.catalogs == i.catalogs + e.catalogs && r.applications == i.applications + e.applications
    && TextChosen(i.kubeVersion, e.kubeVersion, r.kubeVersion)
    && TextChosen(i.sshPublicKeyPath, e.sshPublicKeyPath, r.sshPublicKeyPath)
    && TextChosen(i.sshPublicKey, e.sshPublicKey, r.sshPublicKey) && TextChosen(i.password, e.password, r.password)
    && TextChosen(i.cipherSuites, e.cipherSuites, r.cipherSuites)
    && TextChosen(i.clusterDefinitionInline, e.clusterDefinitionInline, r.clusterDefinitionInline)
    && TextChosen(i.clusterDefinition, e.clusterDefinition, r.clusterDefinition)
    && TextChosen(i.extraIgnitionInline, e.extraIgnitionInline, r.extraIgnitionInline)
    && TextChosen(i.extraIgnition, e.extraIgnition, r.extraIgnition)
  }

  predicate OverlayChosen(cc: ClusterConfig, c: Config, r: ClusterConfig) {
    && r.workingDirectory == cc.workingDirectory && r.name == cc.name && r.provider == cc.provider
    && ProvidersChosen(c.providers, cc.providers, r.providers) && ProxyChosen(c.proxy, cc.proxy, r.proxy)
    && TextChosen(c.registry, cc.registry, r.registry) && r.workerNodes == cc.workerNodes
    && r.controlPlaneNodes == cc.controlPlaneNodes
    && NumberChosen(c.kubeAPIServerBindPort, cc.kubeAPIServerBindPort, r.kubeAPIServerBindPort)
    && NumberChosen(c.kubeAPIServerBindPortAlt, cc.kubeAPIServerBindPortAlt, r.kubeAPIServerBindPortAlt)
    && r.virtualIp == cc.virtualIp && r.loadBalancer == cc.loadBalancer
    && TextChosen(c.podSubnet, cc.podSubnet, r.podSubnet) && TextChosen(c.serviceSubnet, cc.serviceSubnet, r.serviceSubnet)
    && CertificateInformationChosen(c.certificateInformation, cc.certificateInformation, r.certificateInformation)
    && TextChosen(c.osTag, cc.osTag, r.osTag) && TextChosen(c.osRegistry, cc.osRegistry, r.osRegistry)
    && TextChosen(c.kubeProxyMode, cc.kubeProxyMode, r.kubeProxyMode)
    && TextChosen(c.bootVolumeContainerImage, cc.bootVolumeContainerImage, r.bootVolumeContainerImage)
    && TextChosen(c.cni, cc.cni, r.cni) && PointerChosen(c.headlessPtr, cc.headlessPtr, r.headlessPtr)
    && PointerChosen(c.catalogPtr, cc.catalogPtr, r.catalogPtr)
    && PointerChosen(c.communityCatalogPtr, cc.communityCatalogPtr, r.communityCatalogPtr)
    && r.catalogs == cc.catalogs && r.applications == cc.applications
    && TextChosen(c.kubeVersion, cc.kubeVersion, r.kubeVersion)
    && TextChosen(c.sshPublicKeyPath, cc.sshPublicKeyPath, r.sshPublicKeyPath)
    && TextChosen(c.sshPublicKey, cc.sshPublicKey, r.sshPublicKey) && TextChosen(c.password, cc.password, r.password)
    && r.cipherSuites == cc.cipherSuites && r.clusterDefinitionInline == cc.clusterDefinitionInline
    && r.clusterDefinition == cc.clusterDefinition
    && TextChosen(c.extraIgnitionInline, cc.extraIgnitionInline, r.extraIgnitionInline)
    && TextChosen(c.extraIgnition, cc.extraIgnition, r.extraIgnition)
  }

  // ---------- every field set

  predicate ProxyFull(c: Proxy) {
    && c.httpsProxy != "" && c.httpProxy != "" && c.noProxy != ""
  }

  predicate CertificateInformationFull(c: CertificateInformation) {
    && c.country != "" && c.org != "" && c.orgUnit != "" && c.state != ""
  }

  predicate NodeFull(c: Node) {
    && c.memory != "" && c.cpus != 0 && c.storage != ""
  }

  predicate LibvirtProviderFull(c: LibvirtProvider) {
    && c.sessionURI != "" && c.sshKey != "" && c.storagePool != "" && c.network != ""
    && NodeFull(c.controlPlaneNode) && NodeFull(c.workerNode) && c.bootVolumeName != ""
    && c.bootVolumeContainerImagePath != "" && c.slirpSubnet != "" && c.secureBootPtr.Some? && c.smmPtr.Some?
  }

  predicate OciInstanceShapeFull(c: OciInstanceShape) {
    && c.shape != "" && c.ocpus != 0 && c.bootVolumeSize != ""
  }

  predicate LoadBalancerFull(c: LoadBalancer) {
    && c.subnet1 != "" && c.subnet2 != ""
  }

  predicate OciImageSetFull(c: OciImageSet) {
    && c.amd64 != "" && c.arm64 != ""
  }

  predicate OciProviderFull(c: OciProvider) {
    && c.kubeConfigPath != "" && c.compartment != "" && c.profile != "" && c.namespace != ""
    && OciInstanceShapeFull(c.controlPlaneShape) && OciImageSetFull(c.images)
    && OciInstanceShapeFull(c.workerShape) && c.selfManagedPtr.Some? && LoadBalancerFull(c.loadBalancer)
    && c.vcn != "" && c.imageBucket != "" && ProxyFull(c.proxy)
  }

  predicate OvirtCsiDriverFull(c: OvirtCsiDriver) {
    && c.configMapName != "" && c.controllerPluginName != "" && c.csiDriverName != "" && c.installPtr.Some?
    && c.namespace != "" && c.nodePluginName != "" && c.secretName != ""
  }

  predicate NamespacedNameFull(c: NamespacedName) {
    && c.name != "" && c.namespace != ""
  }

  predicate OlvmOckFull(c: OlvmOck) {
    && c.diskName != "" && c.diskSize != "" && c.storageDomainName != ""
  }

  predicate OlvmAPIServerFull(c: OlvmAPIServer) {
    && NamespacedNameFull(c.caConfigMap) && NamespacedNameFull(c.credentialsSecret)
    && c.insecureSkipTLSVerifyPtr.Some? && c.serverCA != "" && c.serverCAPath != "" && c.serverURL != ""
  }

  predicate OlvmNetworkFull(c: OlvmNetwork) {
    && c.networkName != "" && c.vnicName != "" && c.vnicProfileName != ""
  }

  predicate OlvmMachineCpuTopologyFull(c: OlvmMachineCpuTopology) {
    && c.cores != 0 && c.sockets != 0 && c.threads != 0
  }

  predicate OlvmMachineCpuFull(c: OlvmMachineCpu) {
    && c.architecture != "" && OlvmMachineCpuTopologyFull(c.topology)
  }

  predicate OlvmIPV4Full(c: OlvmIPV4) {
    && c.subnet != "" && c.ipAddresses != ""
  }

  predicate OlvmIPV6Full(c: OlvmIPV6) {
    && c.autoConfPtr.Some? && c.ipAddresses != ""
  }

  predicate OlvmVirtualMachineNetworkFull(c: OlvmVirtualMachineNetwork) {
    && c.gateway != "" && c.interface != "" && c.interfaceType != "" && OlvmIPV4Full(c.ipv4)
    && OlvmIPV6Full(c.ipv6)
  }

  predicate OlvmVirtualMachineFull(c: OlvmVirtualMachine) {
    && OlvmMachineCpuFull(c.cpu) && c.memory != "" && OlvmVirtualMachineNetworkFull(c.network)
  }

  predicate OlvmMachineFull(c: OlvmMachine) {
    && OlvmNetworkFull(c.olvmNetwork) && c.olvmOvirtClusterName != ""
    && OlvmVirtualMachineFull(c.virtualMachine) && c.vmTemplateName != ""
  }

  predicate OlvmLocalAPIEndpointFull(c: OlvmLocalAPIEndpoint) {
    && c.bindPort != 0 && c.advertiseAddress != ""
  }

  predicate ByoProviderFull(c: ByoProvider) {
    && c.automaticTokenCreationPtr.Some? && c.networkInterface != ""
  }

  predicate OlvmProviderFull(c: OlvmProvider) {
    && OlvmMachineFull(c.controlPlaneMachine) && OvirtCsiDriverFull(c.csiDriver) && c.datacenterName != ""
    && OlvmLocalAPIEndpointFull(c.localAPIEndpoint) && c.namespace != "" && OlvmAPIServerFull(c.olvmAPIServer)
    && OlvmOckFull(c.olvmOck) && ProxyFull(c.proxy) && c.selfManagedPtr.Some?
    && OlvmMachineFull(c.workerMachine)
  }

  predicate ProvidersFull(c: Providers) {
    && LibvirtProviderFull(c.libvirt) && OciProviderFull(c.oci) && ByoProviderFull(c.byo)
    && OlvmProviderFull(c.olvm)
  }

  predicate EphemeralClusterConfigFull(c: EphemeralClusterConfig) {
    && c.name != "" && NodeFull(c.node)
  }

  predicate ConfigFull(c: Config) {
    && ProvidersFull(c.providers) && c.kubeConfig != "" && c.autoStartUI != "" && ProxyFull(c.proxy)
    && c.kubeAPIServerBindPort != 0 && c.kubeAPIServerBindPortAlt != 0 && c.podSubnet != ""
    && c.serviceSubnet != "" && c.registry != "" && CertificateInformationFull(c.certificateInformation)
    && c.osTag != "" && c.osRegistry != "" && c.kubeProxyMode != "" && c.bootVolumeContainerImage != ""
    && c.cni != "" && c.headlessPtr.Some? && c.catalogPtr.Some? && c.communityCatalogPtr.Some?
    && EphemeralClusterConfigFull(c.ephemeralConfig) && c.quietPtr.Some? && c.kubeVersion != ""
    && c.sshPublicKeyPath != "" && c.sshPublicKey != "" && c.password != "" && c.extraIgnitionInline != ""
    && c.extraIgnition != ""
  }

  predicate ClusterConfigFull(c: ClusterConfig) {
    && c.workingDirectory != "" && c.name != "" && c.provider != "" && ProvidersFull(c.providers)
    && ProxyFull(c.proxy) && c.registry != "" && c.workerNodes != 0 && c.controlPlaneNodes != 0
    && c.kubeAPIServerBindPort != 0 && c.kubeAPIServerBindPortAlt != 0 && c.virtualIp != ""
    && c.loadBalancer != "" && c.podSubnet != "" && c.serviceSubnet != ""
    && CertificateInformationFull(c.certificateInformation) && c.osTag != "" && c.osRegistry != ""
    && c.kubeProxyMode != "" && c.bootVolumeContainerImage != "" && c.cni != "" && c.headlessPtr.Some?
    && c.catalogPtr.Some? && c.communityCatalogPtr.Some? && c.kubeVersion != "" && c.sshPublicKeyPath != ""
    && c.sshPublicKey != "" && c.password != "" && c.cipherSuites != "" && c.clusterDefinitionInline != ""
    && c.clusterDefinition != "" && c.extraIgnitionInline != "" && c.extraIgnition != ""
  }

  // ---------- the laws

  lemma ValuesChosen()
    ensures forall i, e :: TextChosen(i, e, Ies(i, e))
    ensures forall i, e :: NumberChosen(i, e, Iei(i, e))
    ensures forall i, e :: PointerChosen(i, e, Iebpp(i, e))
  {
  }

  lemma MachineChosen(a: OlvmMachine, b: OlvmMachine)
    ensures OlvmMachineChosen(a, b, MergeOlvmMachine(a, b))
  {
    hide Ies, Iei, Iebp, Iebpp, TextChosen, NumberChosen, PointerChosen;
    ValuesChosen();
  }

  lemma MergeProvidersChosen(a: Providers, b: Providers)
    ensures ProvidersChosen(a, b, MergeProviders(a, b))
  {
    hide Ies, Iei, Iebp, Iebpp, TextChosen, NumberChosen, PointerChosen, MergeOlvmMachine, OlvmMachineChosen;
    ValuesChosen();
    MachineChosen(a.olvm.controlPlaneMachine, b.olvm.controlPlaneMachine);
    MachineChosen(a.olvm.workerMachine, b.olvm.workerMachine);
  }

  /** In every field the second argument's value is taken if it is set, and the
      first's if it is not; lists are appended. */
  lemma MergeTakesSecond(a: Config, b: Config, cc: ClusterConfig, dd: ClusterConfig)
    ensures ConfigChosen(a, b, MergeConfig(a, b)) && !MergeConfig(a, b).ephemeralConfig.preserve
    ensures ClusterConfigChosen(cc, dd, MergeClusterConfig(cc, dd))
  {
    hide Ies, Iei, Iebp, Iebpp, TextChosen, NumberChosen, PointerChosen, MergeProviders, ProvidersChosen;
    ValuesChosen();
    MergeProvidersChosen(a.providers, b.providers);
    MergeProvidersChosen(cc.providers, dd.providers);
  }

  /** A cluster's own settings are taken over the defaults of the configuration. */
  lemma OverlayTakesCluster(cc: ClusterConfig, c: Config)
    ensures OverlayChosen(cc, c, OverlayConfig(cc, c))
  {
    hide Ies, Iei, Iebp, Iebpp, TextChosen, NumberChosen, PointerChosen, MergeProviders, ProvidersChosen;
    ValuesChosen();
    MergeProvidersChosen(c.providers, cc.providers);
  }

  lemma FullProvidersWin(a: Providers, b: Providers)
    requires ProvidersFull(b) && DerivedProviders(b)
    ensures MergeProviders(a, b) == b
  {
    FullMachineWins(a.olvm.controlPlaneMachine, b.olvm.controlPlaneMachine);
    FullMachineWins(a.olvm.workerMachine, b.olvm.workerMachine);
    hide MergeOlvmMachine, OlvmMachineFull, DerivedMachine;
  }

  lemma FullMachineWins(a: OlvmMachine, b: OlvmMachine)
    requires OlvmMachineFull(b) && DerivedMachine(b)
    ensures MergeOlvmMachine(a, b) == b
  {
  }

  /** So what has every field set is not changed by what it is laid over. */
  lemma FullWins(a: Config, b: Config)
    requires ConfigFull(b) && Derived(b) && !b.ephemeralConfig.preserve
    ensures MergeConfig(a, b) == b
  {
    hide MergeProviders, ProvidersFull, DerivedProviders;
    FullProvidersWin(a.providers, b.providers);
  }

  lemma FullClusterWins(cc: ClusterConfig, dd: ClusterConfig, c: Config)
    requires ClusterConfigFull(dd) && DerivedCluster(dd)
    ensures MergeClusterConfig(cc, dd)
         == dd.(catalogs := cc.catalogs + dd.catalogs, applications := cc.applications + dd.applications)
    ensures OverlayConfig(dd, c) == dd
  {
    hide MergeProviders, ProvidersFull, DerivedProviders;
    FullProvidersWin(cc.providers, dd.providers);
    FullProvidersWin(c.providers, dd.providers);
  }
}
